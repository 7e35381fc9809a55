/** The scene: every kind of object the newer `hit` interface knows, lists of them,
    and boxes built from six rectangles. `hit` on an object dispatches on its kind;
    on a list it keeps the closest hit found so far and queries each object only up
    to it. */
module HittableLists {
  import opened Vectors
  import opened Rays
  import opened Materials
  import opened Hittables
  import opened Options
  import MovingSpheres
  import Rectangles

  /** A `Box<dyn Hittable>`: the concrete kinds behind the trait object. */
  datatype Object =
    | MovingSphereObject(sphere: MovingSpheres.MovingSphere)
    | RectObject(rect: Rectangles.Rect)
    | BoxObject(box: HBox)
    | ListObject(list: HittableList)

  /** `HittableList`; the constructor is `HittableList::new`. */
  datatype HittableList = HittableList(objects: seq<Object>)

  /** `HBox`: its corners and the list of its six sides. */
  datatype HBox = HBox(min: Point3, max: Point3, sides: HittableList)

  /** Every object obeys its kind's divisor conditions. */
  predicate ValidObject(o: Object)
    decreases o
  {
    match o
    case MovingSphereObject(s) => MovingSpheres.Valid(s)
    case RectObject(rc) => Rectangles.Valid(rc)
    case BoxObject(b) => ValidObjects(b.sides.objects)
    case ListObject(l) => ValidObjects(l.objects)
  }

  predicate ValidObjects(objs: seq<Object>)
    decreases objs
  {
    forall i :: 0 <= i < |objs| ==> ValidObject(objs[i])
  }

  /** The materials an object's surfaces are made of. */
  function MaterialsOf(o: Object): set<Material>
    decreases o
  {
    match o
    case MovingSphereObject(s) => {s.material}
    case RectObject(rc) => {rc.material}
    case BoxObject(b) => MaterialsOfAll(b.sides.objects)
    case ListObject(l) => MaterialsOfAll(l.objects)
  }

  function MaterialsOfAll(objs: seq<Object>): set<Material>
    decreases objs
  {
    if |objs| == 0 then {} else MaterialsOf(objs[0]) + MaterialsOfAll(objs[1..])
  }

  /** `hit` on any object, up to the bound `tMax`. */
  function Hit(o: Object, r: Ray, tMin: real, tMax: Limit, sqrt: real -> real): Option<HitRecord>
    requires ValidObject(o) && IsSqrt(sqrt)
    decreases o
  {
    match o
    case MovingSphereObject(s) => MovingSpheres.Hit(s, r, tMin, tMax, sqrt)
    case RectObject(rc) => Rectangles.Hit(rc, r, tMin, tMax)
    case BoxObject(b) => ListHitFrom(b.sides.objects, r, tMin, tMax, None, sqrt)
    case ListObject(l) => ListHitFrom(l.objects, r, tMin, tMax, None, sqrt)
  }

  /** The rest of the loop of `HittableList::hit` from the bound `closest` and the
      record `acc` found so far: an object that hits lowers the bound to its `t` and
      replaces the record. */
  function ListHitFrom(objs: seq<Object>, r: Ray, tMin: real, closest: Limit, acc: Option<HitRecord>,
                       sqrt: real -> real): Option<HitRecord>
    requires ValidObjects(objs) && IsSqrt(sqrt)
    decreases objs
  {
    if |objs| == 0 then acc
    else
      match Hit(objs[0], r, tMin, closest, sqrt)
      case Some(rec) => ListHitFrom(objs[1..], r, tMin, Finite(rec.t), Some(rec), sqrt)
      case None => ListHitFrom(objs[1..], r, tMin, closest, acc, sqrt)
  }

  /** `HittableList::hit`: the loop started from `tMax` with no record. */
  function ListHit(l: HittableList, r: Ray, tMin: real, tMax: Limit, sqrt: real -> real): Option<HitRecord>
    requires ValidObjects(l.objects) && IsSqrt(sqrt)
  {
    ListHitFrom(l.objects, r, tMin, tMax, None, sqrt)
  }

  /** `HittableList::hit` as the source writes it, with `closest_so_far` and
      `hit_record` updated in the loop. */
  method ListHitLoop(l: HittableList, r: Ray, tMin: real, tMax: Limit, sqrt: real -> real)
    returns (hitRecord: Option<HitRecord>)
    requires ValidObjects(l.objects) && IsSqrt(sqrt)
    ensures hitRecord == ListHit(l, r, tMin, tMax, sqrt)
  {
    var closest := tMax;
    hitRecord := None;
    var i := 0;
    while i < |l.objects|
      invariant 0 <= i <= |l.objects|
      invariant ListHitFrom(l.objects[i..], r, tMin, closest, hitRecord, sqrt) == ListHit(l, r, tMin, tMax, sqrt)
    {
      assert l.objects[i..][0] == l.objects[i] && l.objects[i..][1..] == l.objects[i + 1..];
      match Hit(l.objects[i], r, tMin, closest, sqrt) {
        case Some(rec) =>
          closest := Finite(rec.t);
          hitRecord := Some(rec);
        case None =>
      }
      i := i + 1;
    }
  }

  /** A record lies within the queried interval and on the ray, and its stored
      normal is a unit vector that does not point along the ray. */
  predicate Placed(h: HitRecord, r: Ray, tMin: real, bound: Limit) {
    tMin <= h.t && Below(h.t, bound) && h.p == At(r, h.t) && Facing(h, r)
  }

  /** The front-face convention every primitive keeps. */
  predicate Facing(h: HitRecord, r: Ray) {
    SqLen(h.normal) == 1.0 && Dot(r.direction, h.normal) <= 0.0
  }

  /** The loop state the source maintains: once a record is held, the bound is its
      `t`. */
  predicate FoldReady(acc: Option<HitRecord>, r: Ray, tMin: real, closest: Limit) {
    acc.Some? ==> closest == Finite(acc.value.t) && Placed(acc.value, r, tMin, closest)
  }

  /** Every object reports a hit within the queried interval, on the ray, with a
      unit normal facing the ray, made of one of its own materials. */
  lemma {:induction false} ObjectPlaced(o: Object, r: Ray, tMin: real, tMax: Limit, sqrt: real -> real)
    requires ValidObject(o) && IsSqrt(sqrt)
    ensures Hit(o, r, tMin, tMax, sqrt).Some? ==>
              Placed(Hit(o, r, tMin, tMax, sqrt).value, r, tMin, tMax) &&
              Hit(o, r, tMin, tMax, sqrt).value.material in MaterialsOf(o)
    decreases o
  {
    match o
    case MovingSphereObject(s) => SpherePlaced(s, r, tMin, tMax, sqrt);
    case RectObject(rc) => RectPlaced(rc, r, tMin, tMax);
    case BoxObject(b) => FoldPlaced(b.sides.objects, r, tMin, tMax, None, sqrt);
    case ListObject(l) => FoldPlaced(l.objects, r, tMin, tMax, None, sqrt);
  }

  lemma SpherePlaced(s: MovingSpheres.MovingSphere, r: Ray, tMin: real, tMax: Limit, sqrt: real -> real)
    requires MovingSpheres.Valid(s) && IsSqrt(sqrt)
    ensures var h := MovingSpheres.Hit(s, r, tMin, tMax, sqrt);
      h.Some? ==> Placed(h.value, r, tMin, tMax) && h.value.material == s.material
  {
    if MovingSpheres.Hit(s, r, tMin, tMax, sqrt).Some? {
      MovingSpheres.HitNormal(s, r, tMin, tMax, sqrt);
    }
  }

  lemma RectPlaced(rc: Rectangles.Rect, r: Ray, tMin: real, tMax: Limit)
    requires Rectangles.Valid(rc)
    ensures var h := Rectangles.Hit(rc, r, tMin, tMax);
      h.Some? ==> Placed(h.value, r, tMin, tMax) && h.value.material == rc.material
  {
    if Rectangles.Hit(rc, r, tMin, tMax).Some? {
      Rectangles.HitOnRect(rc, r, tMin, tMax);
      Rectangles.HitNormal(rc, r, tMin, tMax);
    }
  }

  /** The loop keeps its state: the record it ends with lies below the bound it
      started from, and is the one it started with or comes from one of the objects. */
  lemma {:induction false} FoldPlaced(objs: seq<Object>, r: Ray, tMin: real, closest: Limit,
                                      acc: Option<HitRecord>, sqrt: real -> real)
    requires ValidObjects(objs) && IsSqrt(sqrt) && FoldReady(acc, r, tMin, closest)
    ensures var res := ListHitFrom(objs, r, tMin, closest, acc, sqrt);
      res.Some? ==> Placed(res.value, r, tMin, closest) &&
                    (res == acc || res.value.material in MaterialsOfAll(objs))
    decreases objs
  {
    if |objs| > 0 {
      ObjectPlaced(objs[0], r, tMin, closest, sqrt);
      match Hit(objs[0], r, tMin, closest, sqrt)
      case Some(rec) => FoldPlaced(objs[1..], r, tMin, Finite(rec.t), Some(rec), sqrt);
      case None => FoldPlaced(objs[1..], r, tMin, closest, acc, sqrt);
    }
  }

  /** The loop ends with no record exactly when it started with none and every
      object misses at the starting bound. */
  lemma {:induction false} FoldNone(objs: seq<Object>, r: Ray, tMin: real, closest: Limit,
                                    acc: Option<HitRecord>, sqrt: real -> real)
    requires ValidObjects(objs) && IsSqrt(sqrt)
    ensures ListHitFrom(objs, r, tMin, closest, acc, sqrt).None? <==>
              acc.None? && forall i :: 0 <= i < |objs| ==> Hit(objs[i], r, tMin, closest, sqrt).None?
    decreases objs
  {
    if |objs| > 0 {
      var rest := objs[1..];
      assert forall i :: 0 < i < |objs| ==> rest[i - 1] == objs[i];
      match Hit(objs[0], r, tMin, closest, sqrt)
      case Some(rec) =>
        FoldNone(rest, r, tMin, Finite(rec.t), Some(rec), sqrt);
      case None =>
        FoldNone(rest, r, tMin, closest, acc, sqrt);
    }
  }

  /** Lowering an object's upper bound from `tMax` to `tMax'` can only lose its hit,
      never move it: a hit under `tMax'` is at the same `t` under `tMax`, and a hit
      under `tMax` that is lost under `tMax'` is not below `tMax'`. */
  lemma {:induction false} ObjectBounds(o: Object, r: Ray, tMin: real, tMax': Limit, tMax: Limit,
                                        sqrt: real -> real)
    requires ValidObject(o) && IsSqrt(sqrt) && LimitLe(tMax', tMax)
    ensures Hit(o, r, tMin, tMax', sqrt).Some? ==>
              Hit(o, r, tMin, tMax, sqrt).Some? &&
              Hit(o, r, tMin, tMax, sqrt).value.t == Hit(o, r, tMin, tMax', sqrt).value.t
    ensures Hit(o, r, tMin, tMax, sqrt).Some? && Hit(o, r, tMin, tMax', sqrt).None? ==>
              !StrictlyBelow(Hit(o, r, tMin, tMax, sqrt).value.t, tMax')
    decreases o, 3
  {
    match o
    case MovingSphereObject(s) => MovingSpheres.HitBoundMonotone(s, r, tMin, tMax', tMax, sqrt);
    case RectObject(rc) => Rectangles.HitBoundMonotone(rc, r, tMin, tMax', tMax);
    case BoxObject(b) => ListBounds(b.sides.objects, r, tMin, tMax', tMax, sqrt);
    case ListObject(l) => ListBounds(l.objects, r, tMin, tMax', tMax, sqrt);
  }

  /** The same for the whole loop started without a record. */
  lemma {:induction false} ListBounds(objs: seq<Object>, r: Ray, tMin: real, tMax': Limit, tMax: Limit,
                                      sqrt: real -> real)
    requires ValidObjects(objs) && IsSqrt(sqrt) && LimitLe(tMax', tMax)
    ensures ListHitFrom(objs, r, tMin, tMax', None, sqrt).Some? ==>
              ListHitFrom(objs, r, tMin, tMax, None, sqrt).Some? &&
              ListHitFrom(objs, r, tMin, tMax, None, sqrt).value.t == ListHitFrom(objs, r, tMin, tMax', None, sqrt).value.t
    ensures ListHitFrom(objs, r, tMin, tMax, None, sqrt).Some? && ListHitFrom(objs, r, tMin, tMax', None, sqrt).None? ==>
              !StrictlyBelow(ListHitFrom(objs, r, tMin, tMax, None, sqrt).value.t, tMax')
    decreases objs, 2
  {
    var res := ListHitFrom(objs, r, tMin, tMax, None, sqrt);
    var res' := ListHitFrom(objs, r, tMin, tMax', None, sqrt);
    FoldNone(objs, r, tMin, tMax, None, sqrt);
    FoldNone(objs, r, tMin, tMax', None, sqrt);
    FoldWitness(objs, r, tMin, tMax, None, sqrt);
    FoldWitness(objs, r, tMin, tMax', None, sqrt);
    FoldMin(objs, r, tMin, tMax, None, sqrt);
    FoldMin(objs, r, tMin, tMax', None, sqrt);
    FoldPlaced(objs, r, tMin, tMax', None, sqrt);
    if res'.Some? {
      var i :| 0 <= i < |objs| && Hit(objs[i], r, tMin, tMax', sqrt).Some? &&
               Hit(objs[i], r, tMin, tMax', sqrt).value.t == res'.value.t;
      ObjectBounds(objs[i], r, tMin, tMax', tMax, sqrt);
      assert res.Some?;
      var j :| 0 <= j < |objs| && Hit(objs[j], r, tMin, tMax, sqrt).Some? &&
               Hit(objs[j], r, tMin, tMax, sqrt).value.t == res.value.t;
      ObjectBounds(objs[j], r, tMin, tMax', tMax, sqrt);
    }
    if res.Some? && res'.None? {
      var j :| 0 <= j < |objs| && Hit(objs[j], r, tMin, tMax, sqrt).Some? &&
               Hit(objs[j], r, tMin, tMax, sqrt).value.t == res.value.t;
      ObjectBounds(objs[j], r, tMin, tMax', tMax, sqrt);
    }
  }

  /** The loop ends with a record no later than any object's hit at the starting
      bound. */
  lemma {:induction false} FoldMin(objs: seq<Object>, r: Ray, tMin: real, closest: Limit,
                                   acc: Option<HitRecord>, sqrt: real -> real)
    requires ValidObjects(objs) && IsSqrt(sqrt) && FoldReady(acc, r, tMin, closest)
    ensures var res := ListHitFrom(objs, r, tMin, closest, acc, sqrt);
      res.Some? ==> forall i :: 0 <= i < |objs| && Hit(objs[i], r, tMin, closest, sqrt).Some? ==>
                                 res.value.t <= Hit(objs[i], r, tMin, closest, sqrt).value.t
    decreases objs, 1
  {
    if |objs| > 0 {
      var rest := objs[1..];
      ObjectPlaced(objs[0], r, tMin, closest, sqrt);
      match Hit(objs[0], r, tMin, closest, sqrt)
      case Some(rec) =>
        FoldMinAfterHit(objs, r, tMin, closest, rec, sqrt);
      case None =>
        FoldMin(rest, r, tMin, closest, acc, sqrt);
        assert forall i :: 0 < i < |objs| ==> rest[i - 1] == objs[i];
    }
  }

  /** The step of `FoldMin` where the first object hits: the rest of the loop, run
      from that hit's `t`, ends no later than any object's hit at `closest`. */
  lemma {:induction false} FoldMinAfterHit(objs: seq<Object>, r: Ray, tMin: real, closest: Limit,
                                           rec: HitRecord, sqrt: real -> real)
    requires ValidObjects(objs) && IsSqrt(sqrt) && |objs| > 0
    requires Hit(objs[0], r, tMin, closest, sqrt) == Some(rec) && Placed(rec, r, tMin, closest)
    ensures var res := ListHitFrom(objs[1..], r, tMin, Finite(rec.t), Some(rec), sqrt);
      res.Some? ==> forall i :: 0 <= i < |objs| && Hit(objs[i], r, tMin, closest, sqrt).Some? ==>
                                 res.value.t <= Hit(objs[i], r, tMin, closest, sqrt).value.t
    decreases objs, 0
  {
    var rest := objs[1..];
    var bound := Finite(rec.t);
    var res := ListHitFrom(rest, r, tMin, bound, Some(rec), sqrt);
    FoldMin(rest, r, tMin, bound, Some(rec), sqrt);
    FoldPlaced(rest, r, tMin, bound, Some(rec), sqrt);
    forall i | 0 < i < |objs| && res.Some? && Hit(objs[i], r, tMin, closest, sqrt).Some?
      ensures res.value.t <= Hit(objs[i], r, tMin, closest, sqrt).value.t
    {
      assert rest[i - 1] == objs[i];
      var w := Hit(objs[i], r, tMin, closest, sqrt).value;
      if w.t < rec.t {
        ObjectBounds(objs[i], r, tMin, bound, closest, sqrt);
      }
    }
  }

  /** A record the loop ends with is the one it started with, or is at the `t` of some
      object's hit at the starting bound. */
  lemma {:induction false} FoldWitness(objs: seq<Object>, r: Ray, tMin: real, closest: Limit,
                                       acc: Option<HitRecord>, sqrt: real -> real)
    requires ValidObjects(objs) && IsSqrt(sqrt) && FoldReady(acc, r, tMin, closest)
    ensures var res := ListHitFrom(objs, r, tMin, closest, acc, sqrt);
      res.Some? ==> (res == acc ||
        exists i :: 0 <= i < |objs| && Hit(objs[i], r, tMin, closest, sqrt).Some? &&
                    Hit(objs[i], r, tMin, closest, sqrt).value.t == res.value.t)
    decreases objs, 1
  {
    if |objs| > 0 {
      var rest := objs[1..];
      var res := ListHitFrom(objs, r, tMin, closest, acc, sqrt);
      ObjectPlaced(objs[0], r, tMin, closest, sqrt);
      match Hit(objs[0], r, tMin, closest, sqrt)
      case Some(rec) =>
        var bound := Finite(rec.t);
        FoldWitness(rest, r, tMin, bound, Some(rec), sqrt);
        if res.Some? && res != Some(rec) {
          var i :| 0 <= i < |rest| && Hit(rest[i], r, tMin, bound, sqrt).Some? &&
                   Hit(rest[i], r, tMin, bound, sqrt).value.t == res.value.t;
          ObjectBounds(rest[i], r, tMin, bound, closest, sqrt);
          assert objs[i + 1] == rest[i];
        }
      case None =>
        FoldWitness(rest, r, tMin, closest, acc, sqrt);
        if res.Some? && res != acc {
          var i :| 0 <= i < |rest| && Hit(rest[i], r, tMin, closest, sqrt).Some? &&
                   Hit(rest[i], r, tMin, closest, sqrt).value.t == res.value.t;
          assert objs[i + 1] == rest[i];
        }
    }
  }

  /** An object hit no later than `t'` means the loop ends with a hit no later than
      `t'`. */
  lemma ListHitNoLater(objs: seq<Object>, r: Ray, tMin: real, tMax: Limit, sqrt: real -> real, i: int, t': real)
    requires ValidObjects(objs) && IsSqrt(sqrt) && 0 <= i < |objs|
    requires Hit(objs[i], r, tMin, tMax, sqrt).Some? && Hit(objs[i], r, tMin, tMax, sqrt).value.t <= t'
    ensures ListHitFrom(objs, r, tMin, tMax, None, sqrt).Some?
    ensures ListHitFrom(objs, r, tMin, tMax, None, sqrt).value.t <= t'
  {
    FoldNone(objs, r, tMin, tMax, None, sqrt);
    FoldMin(objs, r, tMin, tMax, None, sqrt);
  }

  /** `HittableList::hit` returns the closest hit: nothing exactly when every object
      misses (in particular for the empty list), and otherwise a record within the
      interval, on the ray, with a unit normal facing the ray, made of one of the list's materials, at the `t` of some
      object's hit and no later than any object's hit. */
  lemma ListHitIsClosest(l: HittableList, r: Ray, tMin: real, tMax: Limit, sqrt: real -> real)
    requires ValidObjects(l.objects) && IsSqrt(sqrt)
    ensures ListHit(l, r, tMin, tMax, sqrt).None? <==>
              forall i :: 0 <= i < |l.objects| ==> Hit(l.objects[i], r, tMin, tMax, sqrt).None?
    ensures var res := ListHit(l, r, tMin, tMax, sqrt);
      res.Some? ==>
        Placed(res.value, r, tMin, tMax) && res.value.material in MaterialsOfAll(l.objects) &&
        (exists i :: 0 <= i < |l.objects| && Hit(l.objects[i], r, tMin, tMax, sqrt).Some? &&
                     Hit(l.objects[i], r, tMin, tMax, sqrt).value.t == res.value.t) &&
        (forall i :: 0 <= i < |l.objects| && Hit(l.objects[i], r, tMin, tMax, sqrt).Some? ==>
                     res.value.t <= Hit(l.objects[i], r, tMin, tMax, sqrt).value.t)
  {
    FoldNone(l.objects, r, tMin, tMax, None, sqrt);
    FoldPlaced(l.objects, r, tMin, tMax, None, sqrt);
    FoldWitness(l.objects, r, tMin, tMax, None, sqrt);
    FoldMin(l.objects, r, tMin, tMax, None, sqrt);
  }
}
