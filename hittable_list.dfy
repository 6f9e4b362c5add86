/**
 * The scene list (src/hittable.rs): a growable list of objects and the
 * closest-hit search over it. Every object in the source's list is a
 * sphere, so the list holds spheres.
 */
module HittableLists {
  import opened Vectors
  import opened Rays
  import opened Options
  import opened HitRecords
  import opened Spheres

  predicate AllWellFormed(objects: seq<Sphere>)
  {
    forall i | 0 <= i < |objects| :: WellFormed(objects[i])
  }

  /** The state of the search loop: `closest_so_far` and `record`. */
  datatype Search = Search(closest: Horizon, record: Option<HitRecord>)

  /** One iteration: ask the object for a hit no later than the closest so far. */
  function Step(st: Search, obj: Sphere, r: Ray, tMin: real, sqrt: real -> real): Search
    requires WellFormed(obj)
  {
    match Hit(obj, r, tMin, st.closest, sqrt)
    case Some(rec) => Search(Finite(rec.t), Some(rec))
    case None => st
  }

  /** The loop state after visiting `objects` in order, starting from (t_max, None). */
  function Scan(objects: seq<Sphere>, r: Ray, tMin: real, tMax: Horizon, sqrt: real -> real): Search
    requires AllWellFormed(objects)
  {
    if objects == [] then Search(tMax, None)
    else Step(Scan(objects[..|objects| - 1], r, tMin, tMax, sqrt), objects[|objects| - 1], r, tMin, sqrt)
  }

  /** What `HittableList::hit` returns for these objects. */
  function ListHit(objects: seq<Sphere>, r: Ray, tMin: real, tMax: Horizon, sqrt: real -> real): Option<HitRecord>
    requires AllWellFormed(objects)
  {
    Scan(objects, r, tMin, tMax, sqrt).record
  }

  class HittableList {
    var objects: seq<Sphere>

    predicate Valid()
      reads this
    {
      AllWellFormed(objects)
    }

    /** `HittableList::new`: an empty list. */
    constructor ()
      ensures objects == [] && Valid()
    {
      objects := [];
    }

    /** `add`: push the object at the end; earlier objects are untouched. */
    method Add(obj: Sphere)
      requires Valid() && WellFormed(obj)
      modifies this
      ensures objects == old(objects) + [obj]
      ensures Valid()
    {
      objects := objects + [obj];
    }

    /**
     * `hit`: visit every object, narrowing the upper bound to the `t` of
     * each accepted hit, and return the last record accepted.
     */
    method Hit(r: Ray, tMin: real, tMax: Horizon, sqrt: real -> real) returns (record: Option<HitRecord>)
      requires Valid()
      ensures record == ListHit(objects, r, tMin, tMax, sqrt)
    {
      record := None;
      var closestSoFar := tMax;
      for i := 0 to |objects|
        invariant Search(closestSoFar, record) == Scan(objects[..i], r, tMin, tMax, sqrt)
      {
        assert objects[..i + 1][..i] == objects[..i];
        var tempRec := Spheres.Hit(objects[i], r, tMin, closestSoFar, sqrt);
        if tempRec.Some? {
          closestSoFar := Finite(tempRec.value.t);
          record := tempRec;
        }
      }
      assert objects[..|objects|] == objects;
    }
  }

  // ---------------------------------------------------------------------
  // Properties of the search
  // ---------------------------------------------------------------------

  /** `a` is no later than `b` as an upper bound. */
  predicate NoLater(a: Horizon, b: Horizon)
  {
    b.Infinite? || (a.Finite? && a.bound <= b.bound)
  }

  /**
   * The loop invariant: the bound never grows past t_max; with no record it
   * is still t_max, and with a record it is that record's t, which lies
   * within [t_min, t_max].
   */
  lemma {:induction false} ScanInvariant(objects: seq<Sphere>, r: Ray, tMin: real, tMax: Horizon, sqrt: real -> real)
    requires AllWellFormed(objects)
    ensures var st := Scan(objects, r, tMin, tMax, sqrt);
      NoLater(st.closest, tMax) &&
      (st.record.None? ==> st.closest == tMax) &&
      (st.record.Some? ==> st.closest == Finite(st.record.value.t) && Within(st.record.value.t, tMin, tMax))
  {
    if objects != [] {
      var prefix := objects[..|objects| - 1];
      ScanInvariant(prefix, r, tMin, tMax, sqrt);
      var st := Scan(prefix, r, tMin, tMax, sqrt);
      var h := Hit(objects[|objects| - 1], r, tMin, st.closest, sqrt);
      if h.Some? && st.record.Some? {
        WithinNarrowed(h.value.t, tMin, tMax, st.record.value.t);
      }
    }
  }

  /**
   * The search narrows: `closest_so_far` never grows from one object to the
   * next, so after more objects the bound is no later than after fewer.
   */
  lemma {:induction false} ScanNarrows(objects: seq<Sphere>, r: Ray, tMin: real, tMax: Horizon, sqrt: real -> real,
                                       i: nat, j: nat)
    requires AllWellFormed(objects) && j <= i <= |objects|
    ensures NoLater(Scan(objects[..i], r, tMin, tMax, sqrt).closest, Scan(objects[..j], r, tMin, tMax, sqrt).closest)
    decreases i
  {
    if i > j {
      var st := Scan(objects[..i - 1], r, tMin, tMax, sqrt);
      assert objects[..i][..i - 1] == objects[..i - 1];
      StepNarrows(st, objects[i - 1], r, tMin, sqrt);
      ScanNarrows(objects, r, tMin, tMax, sqrt, i - 1, j);
    }
  }

  /** One iteration never raises the bound: an accepted hit lies within it. */
  lemma StepNarrows(st: Search, obj: Sphere, r: Ray, tMin: real, sqrt: real -> real)
    requires WellFormed(obj)
    ensures NoLater(Step(st, obj, r, tMin, sqrt).closest, st.closest)
  {
  }

  /** An empty list never reports a hit. */
  lemma EmptyListMisses(r: Ray, tMin: real, tMax: Horizon, sqrt: real -> real)
    ensures ListHit([], r, tMin, tMax, sqrt) == None
  {
  }

  /** Any record returned lies in [t_min, t_max]. */
  lemma ListHitWithin(objects: seq<Sphere>, r: Ray, tMin: real, tMax: Horizon, sqrt: real -> real)
    requires AllWellFormed(objects)
    requires ListHit(objects, r, tMin, tMax, sqrt).Some?
    ensures Within(ListHit(objects, r, tMin, tMax, sqrt).value.t, tMin, tMax)
  {
    ScanInvariant(objects, r, tMin, tMax, sqrt);
  }

  /** The returned record is one that some object of the list produced, at a point on its surface. */
  lemma {:induction false} ListHitProvenance(objects: seq<Sphere>, r: Ray, tMin: real, tMax: Horizon, sqrt: real -> real)
    requires AllWellFormed(objects) && IsSqrt(sqrt)
    requires ListHit(objects, r, tMin, tMax, sqrt).Some?
    ensures var rec := ListHit(objects, r, tMin, tMax, sqrt).value;
      exists j :: 0 <= j < |objects| && rec == Record(objects[j], r, rec.t) && OnSurface(objects[j], r, rec.t)
  {
    var prefix := objects[..|objects| - 1];
    var last := |objects| - 1;
    var st := Scan(prefix, r, tMin, tMax, sqrt);
    var rec := ListHit(objects, r, tMin, tMax, sqrt).value;
    if Hit(objects[last], r, tMin, st.closest, sqrt).Some? {
      HitIsOnSurface(objects[last], r, tMin, st.closest, sqrt);
      assert rec == Record(objects[last], r, rec.t) && OnSurface(objects[last], r, rec.t);
    } else {
      ListHitProvenance(prefix, r, tMin, tMax, sqrt);
      var j :| 0 <= j < |prefix| && rec == Record(prefix[j], r, rec.t) && OnSurface(prefix[j], r, rec.t);
      assert prefix[j] == objects[j];
    }
  }

  /**
   * The closest hit: when any object, asked on the whole interval, reports
   * a hit, the list reports one too, and no later than that object's.
   */
  lemma {:induction false} ListHitNearest(objects: seq<Sphere>, r: Ray, tMin: real, tMax: Horizon, sqrt: real -> real)
    requires AllWellFormed(objects) && IsSqrt(sqrt)
    ensures forall j | 0 <= j < |objects| && Hit(objects[j], r, tMin, tMax, sqrt).Some? ::
      ListHit(objects, r, tMin, tMax, sqrt).Some? &&
      ListHit(objects, r, tMin, tMax, sqrt).value.t <= Hit(objects[j], r, tMin, tMax, sqrt).value.t
  {
    if objects != [] {
      var prefix := objects[..|objects| - 1];
      var o := objects[|objects| - 1];
      ListHitNearest(prefix, r, tMin, tMax, sqrt);
      ScanInvariant(prefix, r, tMin, tMax, sqrt);
      var st := Scan(prefix, r, tMin, tMax, sqrt);
      var res := ListHit(objects, r, tMin, tMax, sqrt);
      var full := Hit(o, r, tMin, tMax, sqrt);
      if full.Some? && st.record.Some? {
        NarrowedHit(o, r, tMin, tMax, st.record.value.t, sqrt);
      }
      forall j | 0 <= j < |objects| && Hit(objects[j], r, tMin, tMax, sqrt).Some?
        ensures res.Some? && res.value.t <= Hit(objects[j], r, tMin, tMax, sqrt).value.t
      {
        if j < |prefix| {
          assert prefix[j] == objects[j];
        }
      }
    }
  }

  /**
   * Ties go to the later object: the sphere accepts a root equal to the
   * narrowed upper end, so an appended object whose hit has the same t as
   * the current record replaces it.
   */
  lemma LaterWinsTie(prefix: seq<Sphere>, o: Sphere, r: Ray, tMin: real, tMax: Horizon, sqrt: real -> real)
    requires AllWellFormed(prefix) && WellFormed(o) && IsSqrt(sqrt)
    requires ListHit(prefix, r, tMin, tMax, sqrt).Some? && Hit(o, r, tMin, tMax, sqrt).Some?
    requires Hit(o, r, tMin, tMax, sqrt).value.t == ListHit(prefix, r, tMin, tMax, sqrt).value.t
    ensures AllWellFormed(prefix + [o])
    ensures ListHit(prefix + [o], r, tMin, tMax, sqrt) == Hit(o, r, tMin, tMax, sqrt)
  {
    var objects := prefix + [o];
    assert objects[..|objects| - 1] == prefix;
    ScanInvariant(prefix, r, tMin, tMax, sqrt);
    NarrowedHit(o, r, tMin, tMax, ListHit(prefix, r, tMin, tMax, sqrt).value.t, sqrt);
  }

  /**
   * The list misses exactly when every object, asked on the whole interval,
   * misses.
   */
  lemma {:induction false} ListMissIffAllMiss(objects: seq<Sphere>, r: Ray, tMin: real, tMax: Horizon, sqrt: real -> real)
    requires AllWellFormed(objects)
    ensures ListHit(objects, r, tMin, tMax, sqrt).None?
        <==> forall j | 0 <= j < |objects| :: Hit(objects[j], r, tMin, tMax, sqrt).None?
  {
    if objects != [] {
      var prefix := objects[..|objects| - 1];
      ListMissIffAllMiss(prefix, r, tMin, tMax, sqrt);
      ScanInvariant(prefix, r, tMin, tMax, sqrt);
      assert forall j | 0 <= j < |prefix| :: prefix[j] == objects[j];
    }
  }
}
