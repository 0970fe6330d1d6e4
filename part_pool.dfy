/** The bounded free-list of in-memory parts. Taking never blocks: an empty
    pool hands out a newly allocated part. Returning never blocks: the part is
    reset and kept if there is room, dropped otherwise. */
module PartPool {
  import opened Parts

  /** The idle queue after a take: the front element leaves, the rest keep
      their order. */
  function AfterGet<T>(q: seq<T>): (r: seq<T>)
    ensures q == [] ==> r == []
    ensures q != [] ==> [q[0]] + r == q
  {
    if q == [] then [] else q[1..]
  }

  /** The idle queue after offering `x` to a pool of capacity `cap`: `x` is
      appended when there is room, and nothing else changes. */
  function AfterPut<T>(q: seq<T>, cap: nat, x: T): (r: seq<T>)
    ensures |q| <= |r| <= |q| + 1 && r[..|q|] == q
    ensures |r| == |q| + 1 <==> |q| < cap
    ensures |r| == |q| + 1 ==> r[|q|] == x
    ensures |q| <= cap ==> |r| <= cap
  {
    if |q| < cap then q + [x] else q
  }

  /** One request to the pool. */
  datatype PoolOp<T> = GetOp | PutOp(part: T)

  /** The idle queue after the requests `ops`, in order. */
  function RunPool<T>(q: seq<T>, cap: nat, ops: seq<PoolOp<T>>): seq<T>
    decreases |ops|
  {
    if ops == [] then q
    else
      var q' := match ops[0]
        case GetOp => AfterGet(q)
        case PutOp(x) => AfterPut(q, cap, x);
      RunPool(q', cap, ops[1..])
  }

  /** Whatever the requests, a pool that starts within its capacity stays
      within it. */
  lemma {:induction false} PoolNeverExceedsCap<T>(q: seq<T>, cap: nat, ops: seq<PoolOp<T>>)
    requires |q| <= cap
    ensures |RunPool(q, cap, ops)| <= cap
    decreases |ops|
  {
    if ops != [] {
      match ops[0]
      case GetOp => PoolNeverExceedsCap(AfterGet(q), cap, ops[1..]);
      case PutOp(x) => PoolNeverExceedsCap(AfterPut(q, cap, x), cap, ops[1..]);
    }
  }

  /** The pool only ever holds parts it started with or was given back. */
  lemma {:induction false} PoolHoldsOnlyReturnedParts<T>(q: seq<T>, cap: nat, ops: seq<PoolOp<T>>)
    ensures forall x :: x in RunPool(q, cap, ops) ==> x in q || PutOp(x) in ops
    decreases |ops|
  {
    if ops != [] {
      var q' := match ops[0]
        case GetOp => AfterGet(q)
        case PutOp(x) => AfterPut(q, cap, x);
      PoolHoldsOnlyReturnedParts(q', cap, ops[1..]);
      forall x | x in RunPool(q, cap, ops)
        ensures x in q || PutOp(x) in ops
      {
        assert x in q' || PutOp(x) in ops[1..];
        if x in q' && x !in q {
          assert ops[0] == PutOp(x);
        }
      }
    }
  }

  /** No element appears twice. */
  ghost predicate Distinct<T>(q: seq<T>) {
    forall i, j :: 0 <= i < j < |q| ==> q[i] != q[j]
  }

  /** The pool of idle parts, `mpPool`, with the capacity it was made with. */
  class InmemoryPartPool {
    const cap: nat
    var idle: seq<InmemoryPart>

    /** Within capacity, and every idle part has been reset. */
    ghost predicate Valid()
      reads this, idle
    {
      0 < cap && |idle| <= cap &&
      forall i :: 0 <= i < |idle| ==> idle[i].State().IsReset()
    }

    /** An empty pool holding at most `cap` parts (the host's CPU count). */
    constructor (cap: nat)
      requires cap > 0
      ensures Valid() && this.cap == cap && idle == []
    {
      this.cap := cap;
      idle := [];
    }

    /** Takes the front idle part, or allocates a new one if none is idle. */
    method GetInmemoryPart() returns (mp: InmemoryPart)
      requires Valid()
      modifies this
      ensures Valid()
      ensures idle == AfterGet(old(idle))
      ensures old(idle) != [] ==> mp == old(idle)[0]
      ensures old(idle) == [] ==> fresh(mp) && mp.State() == ZeroPart
      ensures old(idle) != [] ==> mp.State().IsReset()
      ensures Distinct(old(idle)) ==> Distinct(idle) && mp !in idle
    {
      if idle != [] {
        mp := idle[0];
        idle := idle[1..];
      } else {
        mp := new InmemoryPart();
      }
    }

    /** Resets `mp` and keeps it if the pool has room; otherwise drops it. */
    method PutInmemoryPart(mp: InmemoryPart)
      requires Valid()
      modifies this, mp
      ensures Valid()
      ensures mp.State() == old(mp.State()).Reset()
      ensures idle == AfterPut(old(idle), cap, mp)
      ensures Distinct(old(idle)) && mp !in old(idle) ==> Distinct(idle)
    {
      mp.Reset();
      if |idle| < cap {
        idle := idle + [mp];
      }
    }
  }
}
