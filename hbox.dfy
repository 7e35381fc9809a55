/** `HBox`: an axis-aligned box whose surface is a list of six rectangles, two per
    axis, spanning the box between its corners `min` and `max`. */
module Boxes {
  import opened Vectors
  import opened Rays
  import opened Materials
  import opened Hittables
  import opened Options
  import Rectangles
  import opened HittableLists

  /** The six sides in the order `HBox::new` pushes them: z = max.z, z = min.z,
      y = max.y, y = min.y, x = max.x, x = min.x. */
  function Sides(min: Point3, max: Point3, material: Material): (sides: seq<Rectangles.Rect>)
    ensures |sides| == 6
  {
    [Rectangles.XYRect(min.x, max.x, min.y, max.y, max.z, material),
     Rectangles.XYRect(min.x, max.x, min.y, max.y, min.z, material),
     Rectangles.XZRect(min.x, max.x, min.z, max.z, max.y, material),
     Rectangles.XZRect(min.x, max.x, min.z, max.z, min.y, material),
     Rectangles.YZRect(min.y, max.y, min.z, max.z, max.x, material),
     Rectangles.YZRect(min.y, max.y, min.z, max.z, min.x, material)]
  }

  function AsObjects(rects: seq<Rectangles.Rect>): (objs: seq<Object>)
    ensures |objs| == |rects|
    ensures forall i :: 0 <= i < |rects| ==> objs[i] == RectObject(rects[i])
  {
    if |rects| == 0 then [] else [RectObject(rects[0])] + AsObjects(rects[1..])
  }

  /** The box `HBox::new(min, max, material)` builds. */
  function Box(min: Point3, max: Point3, material: Material): HBox {
    HBox(min, max, HittableList(AsObjects(Sides(min, max, material))))
  }

  /** `HBox::new`: the six sides are pushed one by one onto a fresh list. */
  method NewBox(min: Point3, max: Point3, material: Material) returns (b: HBox)
    ensures b == Box(min, max, material)
  {
    var objectList: seq<Object> := [];
    objectList := objectList + [RectObject(Rectangles.XYRect(min.x, max.x, min.y, max.y, max.z, material))];
    objectList := objectList + [RectObject(Rectangles.XYRect(min.x, max.x, min.y, max.y, min.z, material))];
    objectList := objectList + [RectObject(Rectangles.XZRect(min.x, max.x, min.z, max.z, max.y, material))];
    objectList := objectList + [RectObject(Rectangles.XZRect(min.x, max.x, min.z, max.z, min.y, material))];
    objectList := objectList + [RectObject(Rectangles.YZRect(min.y, max.y, min.z, max.z, max.x, material))];
    objectList := objectList + [RectObject(Rectangles.YZRect(min.y, max.y, min.z, max.z, min.x, material))];
    var sides := HittableList(objectList);
    b := HBox(min, max, sides);
    assert b.sides.objects == AsObjects(Sides(min, max, material));
  }

  /** The sides divide by the box's extents, so none of them may be flat. */
  predicate ValidCorners(min: Point3, max: Point3) {
    min.x != max.x && min.y != max.y && min.z != max.z
  }

  /** The corners are ordered, `min` below `max` in every coordinate. */
  predicate Ordered(min: Point3, max: Point3) {
    min.x <= max.x && min.y <= max.y && min.z <= max.z
  }

  /** `p` lies in the closed box. */
  predicate Inside(min: Point3, max: Point3, p: Point3) {
    min.x <= p.x <= max.x && min.y <= p.y <= max.y && min.z <= p.z <= max.z
  }

  /** `p` lies on the surface of the box: inside it and on one of its six planes. */
  predicate OnSurface(min: Point3, max: Point3, p: Point3) {
    Inside(min, max, p) &&
    (p.x == min.x || p.x == max.x || p.y == min.y || p.y == max.y || p.z == min.z || p.z == max.z)
  }

  /** The box is valid as an object exactly when its corners differ in every
      coordinate, and then every side carries the box's material. */
  lemma BoxValid(min: Point3, max: Point3, material: Material)
    ensures ValidObject(BoxObject(Box(min, max, material))) <==> ValidCorners(min, max)
    ensures MaterialsOf(BoxObject(Box(min, max, material))) == {material}
  {
    var sides := Sides(min, max, material);
    var objs := AsObjects(sides);
    if ValidCorners(min, max) {
      forall i | 0 <= i < 6 ensures ValidObject(objs[i]) {
        assert objs[i] == RectObject(sides[i]);
      }
    }
    if ValidObject(BoxObject(Box(min, max, material))) {
      assert Box(min, max, material).sides.objects == objs;
      assert ValidObjects(objs);
      assert ValidObject(objs[0]) && ValidObject(objs[2]);
      assert objs[0] == RectObject(sides[0]) && objs[2] == RectObject(sides[2]);
    }
    MaterialsOfRects(sides, material);
  }

  lemma {:induction false} MaterialsOfRects(rects: seq<Rectangles.Rect>, m: Material)
    requires |rects| > 0 && forall i :: 0 <= i < |rects| ==> rects[i].material == m
    ensures MaterialsOfAll(AsObjects(rects)) == {m}
    decreases |rects|
  {
    var objs := AsObjects(rects);
    assert objs[1..] == AsObjects(rects[1..]);
    if |rects| > 1 {
      MaterialsOfRects(rects[1..], m);
    } else {
      assert objs[1..] == [];
    }
  }

  /** Each side sits on one of the box's six planes and spans the box along its other
      two axes; so for ordered corners the surface of the box is exactly the union of
      its sides. */
  lemma SidesCoverSurface(min: Point3, max: Point3, material: Material, p: Point3)
    requires Ordered(min, max)
    ensures OnSurface(min, max, p) <==> exists i :: 0 <= i < 6 && Rectangles.OnRect(Sides(min, max, material)[i], p)
  {
    var sides := Sides(min, max, material);
    if OnSurface(min, max, p) {
      var i := if p.z == max.z then 0 else if p.z == min.z then 1 else if p.y == max.y then 2
               else if p.y == min.y then 3 else if p.x == max.x then 4 else 5;
      assert Rectangles.OnRect(sides[i], p);
    }
    forall i | 0 <= i < 6 && Rectangles.OnRect(sides[i], p) ensures OnSurface(min, max, p) {
      if i == 0 { assert p.z == max.z; }
      else if i == 1 { assert p.z == min.z; }
      else if i == 2 { assert p.y == max.y; }
      else if i == 3 { assert p.y == min.y; }
      else if i == 4 { assert p.x == max.x; }
      else { assert p.x == min.x; }
    }
  }

  /** A hit on a box with ordered corners is a point of its surface made of its
      material. */
  lemma BoxHitOnSurface(min: Point3, max: Point3, material: Material, r: Ray, tMin: real, tMax: Limit,
                        sqrt: real -> real)
    requires ValidCorners(min, max) && Ordered(min, max) && IsSqrt(sqrt)
    ensures ValidObject(BoxObject(Box(min, max, material)))
    ensures var h := Hit(BoxObject(Box(min, max, material)), r, tMin, tMax, sqrt);
      h.Some? ==> OnSurface(min, max, h.value.p) && h.value.material == material && Placed(h.value, r, tMin, tMax)
  {
    BoxValid(min, max, material);
    var b := Box(min, max, material);
    var objs := b.sides.objects;
    var h := Hit(BoxObject(b), r, tMin, tMax, sqrt);
    ListHitIsClosest(b.sides, r, tMin, tMax, sqrt);
    if h.Some? {
      var i :| 0 <= i < |objs| && Hit(objs[i], r, tMin, tMax, sqrt).Some? &&
               Hit(objs[i], r, tMin, tMax, sqrt).value.t == h.value.t;
      SideHitOnRect(min, max, material, r, tMin, tMax, sqrt, i);
      assert Rectangles.OnRect(Sides(min, max, material)[i], h.value.p);
      SidesCoverSurface(min, max, material, h.value.p);
    }
  }

  lemma SideHitOnRect(min: Point3, max: Point3, material: Material, r: Ray, tMin: real, tMax: Limit,
                      sqrt: real -> real, i: int)
    requires ValidCorners(min, max) && IsSqrt(sqrt) && 0 <= i < 6
    requires ValidObject(Box(min, max, material).sides.objects[i])
    requires Hit(Box(min, max, material).sides.objects[i], r, tMin, tMax, sqrt).Some?
    ensures Rectangles.OnRect(Sides(min, max, material)[i],
                              At(r, Hit(Box(min, max, material).sides.objects[i], r, tMin, tMax, sqrt).value.t))
  {
    var side := Sides(min, max, material)[i];
    assert Box(min, max, material).sides.objects[i] == RectObject(side);
    Rectangles.HitOnRect(side, r, tMin, tMax);
  }

  /** The box reports its nearest surface point: any point of the surface reached
      within [tMin, tMax] by a ray not parallel to one of the sides containing it
      means a hit, no later than that point. */
  lemma BoxHitIsNearest(min: Point3, max: Point3, material: Material, r: Ray, tMin: real, tMax: Limit,
                        sqrt: real -> real, i: int, t': real)
    requires ValidCorners(min, max) && IsSqrt(sqrt) && 0 <= i < 6
    requires tMin <= t' && Below(t', tMax) && Rectangles.OnRect(Sides(min, max, material)[i], At(r, t'))
    requires Rectangles.Coord(r.direction, Rectangles.NormalAxis(Sides(min, max, material)[i])) != 0.0
    ensures ValidObject(BoxObject(Box(min, max, material)))
    ensures var h := Hit(BoxObject(Box(min, max, material)), r, tMin, tMax, sqrt);
      h.Some? && h.value.t <= t'
  {
    BoxValid(min, max, material);
    var b := Box(min, max, material);
    var side := Sides(min, max, material)[i];
    Rectangles.HitComplete(side, r, tMin, tMax, t');
    assert b.sides.objects[i] == RectObject(side);
    assert Hit(b.sides.objects[i], r, tMin, tMax, sqrt) == Rectangles.Hit(side, r, tMin, tMax);
    ListHitNoLater(b.sides.objects, r, tMin, tMax, sqrt, i, t');
  }
}
