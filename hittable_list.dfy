/**
 * The scene: a growable list of objects and the closest-hit query over it
 * (src/hittable_list.rs). The `Box<dyn Hittable>` elements are spheres, the
 * only `Hittable` the core defines besides the list itself.
 */
module HittableLists {
  import opened Options
  import opened Vectors
  import opened Rays
  import opened Hittables
  import opened Spheres

  /** Which object the closest hit belongs to, and when it happens. */
  datatype Nearest = Nearest(index: nat, t: real)

  /** The upper bound the next object is queried with: the closest hit so far, else `tMax`. */
  function Bound(n: Option<Nearest>, tMax: Limit): Limit
  {
    if n.Some? then Finite(n.value.t) else tMax
  }

  /**
   * The closest-hit reduction the loop in `hit` performs: the last object is
   * queried with the bound the earlier objects left behind, and a hit from
   * it replaces theirs.
   */
  function Closest(objects: seq<Sphere>, r: Ray, tMin: real, tMax: Limit, sqrt: real -> real): (n: Option<Nearest>)
    requires IsSqrt(sqrt) && r.direction != Zero
    ensures n.Some? ==> n.value.index < |objects|
    ensures n.Some? ==> InRange(n.value.t, tMin, tMax)
    ensures n.Some? ==> Meets(objects[n.value.index], r, n.value.t)
  {
    if |objects| == 0 then
      None
    else
      var last := |objects| - 1;
      var prefix := Closest(objects[..last], r, tMin, tMax, sqrt);
      RootMeets(objects[last], r, tMin, Bound(prefix, tMax), sqrt);
      match Root(objects[last], r, tMin, Bound(prefix, tMax), sqrt)
      case Some(t) => Some(Nearest(last, t))
      case None => prefix
  }

  /**
   * The reported hit is the nearest: if any object is met at a time in
   * `[tMin, tMax]`, a hit is reported and it is no later than that time.
   */
  lemma {:induction false} ClosestIsNearest(objects: seq<Sphere>, r: Ray, tMin: real, tMax: Limit,
                                            sqrt: real -> real, i: nat, t: real)
    requires IsSqrt(sqrt) && r.direction != Zero
    requires i < |objects| && InRange(t, tMin, tMax) && Meets(objects[i], r, t)
    ensures Closest(objects, r, tMin, tMax, sqrt).Some?
    ensures Closest(objects, r, tMin, tMax, sqrt).value.t <= t
    decreases |objects|
  {
    var last := |objects| - 1;
    var prefix := Closest(objects[..last], r, tMin, tMax, sqrt);
    if i < last {
      ClosestIsNearest(objects[..last], r, tMin, tMax, sqrt, i, t);
    } else if prefix.None? || t < prefix.value.t {
      RootIsNearest(objects[last], r, tMin, Bound(prefix, tMax), sqrt, t);
    }
  }

  /** No hit is reported exactly when every object, asked about `[tMin, tMax]`, reports none. */
  lemma {:induction false} ClosestNoneIffAllMiss(objects: seq<Sphere>, r: Ray, tMin: real, tMax: Limit,
                                                 sqrt: real -> real)
    requires IsSqrt(sqrt) && r.direction != Zero
    ensures Closest(objects, r, tMin, tMax, sqrt).None?
            <==> forall i :: 0 <= i < |objects| ==> Root(objects[i], r, tMin, tMax, sqrt).None?
    decreases |objects|
  {
    if exists i :: 0 <= i < |objects| && Root(objects[i], r, tMin, tMax, sqrt).Some? {
      var i :| 0 <= i < |objects| && Root(objects[i], r, tMin, tMax, sqrt).Some?;
      RootMeets(objects[i], r, tMin, tMax, sqrt);
      ClosestIsNearest(objects, r, tMin, tMax, sqrt, i, Root(objects[i], r, tMin, tMax, sqrt).value);
    } else if |objects| > 0 {
      var last := |objects| - 1;
      ClosestNoneIffAllMiss(objects[..last], r, tMin, tMax, sqrt);
    }
  }

  /**
   * The bound only ever shrinks: once a prefix of the list has a hit, every
   * longer prefix has one too, and it is no later.
   */
  lemma {:induction false} ClosestNeverIncreases(objects: seq<Sphere>, r: Ray, tMin: real, tMax: Limit,
                                                 sqrt: real -> real, j: nat, k: nat)
    requires IsSqrt(sqrt) && r.direction != Zero
    requires j <= k <= |objects|
    requires Closest(objects[..j], r, tMin, tMax, sqrt).Some?
    ensures Closest(objects[..k], r, tMin, tMax, sqrt).Some?
    ensures Closest(objects[..k], r, tMin, tMax, sqrt).value.t <= Closest(objects[..j], r, tMin, tMax, sqrt).value.t
    decreases k - j
  {
    if j < k {
      ClosestNeverIncreases(objects, r, tMin, tMax, sqrt, j, k - 1);
      assert objects[..k][..k - 1] == objects[..k - 1];
    }
  }

  class HittableList {
    var objects: seq<Sphere>

    /** `HittableList::new`: an empty scene. */
    constructor ()
      ensures objects == []
    {
      objects := [];
    }

    method Clear()
      modifies this
      ensures objects == []
    {
      objects := [];
    }

    /** Appends one object at the end and keeps the earlier ones in order. */
    method Add(obj: Sphere)
      modifies this
      ensures objects == old(objects) + [obj]
    {
      objects := objects + [obj];
    }

    /** Every sphere has a radius it can divide by. */
    predicate NonDegenerate()
      reads this
    {
      forall i :: 0 <= i < |objects| ==> objects[i].radius != 0.0
    }

    /**
     * `hit`: asks each object in turn, narrowing `tClosest` to every hit it
     * gets, and returns the record of the last hit, which is `Closest`'s.
     */
    method Hit(r: Ray, tMin: real, tMax: Limit, sqrt: real -> real) returns (result: Option<HitRecord>)
      requires IsSqrt(sqrt) && r.direction != Zero && NonDegenerate()
      ensures result.None? <==> Closest(objects, r, tMin, tMax, sqrt).None?
      ensures result.Some? ==>
                var n := Closest(objects, r, tMin, tMax, sqrt).value;
                Describes(result.value, objects[n.index], r, n.t)
    {
      result := None;
      var tClosest := tMax;
      for i := 0 to |objects|
        invariant result.None? <==> Closest(objects[..i], r, tMin, tMax, sqrt).None?
        invariant tClosest == Bound(Closest(objects[..i], r, tMin, tMax, sqrt), tMax)
        invariant result.Some? ==>
                    var n := Closest(objects[..i], r, tMin, tMax, sqrt).value;
                    Describes(result.value, objects[n.index], r, n.t)
      {
        assert objects[..i + 1][..i] == objects[..i];
        var rec := Spheres.Hit(objects[i], r, tMin, tClosest, sqrt);
        if rec.Some? {
          tClosest := Finite(rec.value.t);
          result := rec;
        }
      }
      assert objects[..|objects|] == objects;
    }
  }
}
