/**
 * The pool effect of the worker endpoint: a connection that completes the
 * upgrade is added to the pool, serves until its read loop ends, and is then
 * removed by a deferred `Remove`. Meanwhile other callers may add, remove and
 * get connections; those calls are modelled as a list of pool operations.
 */
module Worker {
  import opened Wrappers
  import opened PoolSpec
  import opened Pool

  /** One call on the pool made by another task. */
  datatype PoolOp<H> = AddOp(h: H) | RemoveOp(h: H) | GetOp

  /** The pool after one operation. */
  function Apply<H(==)>(s: seq<H>, op: PoolOp<H>): seq<H>
  {
    match op
    case AddOp(h) => s + [h]
    case RemoveOp(h) => RemoveFirst(s, h)
    case GetOp => Rotate(s)
  }

  /** The pool after a list of operations, applied in order. */
  function Replay<H(==)>(s: seq<H>, ops: seq<PoolOp<H>>): seq<H>
    decreases |ops|
  {
    if ops == [] then s else Replay(Apply(s, ops[0]), ops[1..])
  }

  /** No operation in `ops` adds or removes `x`. */
  predicate LeavesAlone<H(==)>(ops: seq<PoolOp<H>>, x: H)
  {
    forall i :: 0 <= i < |ops| ==> ops[i] != AddOp(x) && ops[i] != RemoveOp(x)
  }

  /**
   * Each operation changes the number of live entries as the pool contract
   * says: an add adds one, a remove of a present handle takes one away, and
   * a remove of an absent handle and a get change nothing.
   */
  lemma ApplyCount<H>(s: seq<H>, op: PoolOp<H>)
    ensures |Apply(s, op)| == |s| + (if op.AddOp? then 1 else if op.RemoveOp? && op.h in s then -1 else 0)
  {
    match op
    case AddOp(h) =>
    case RemoveOp(h) => RemoveFirstMultiset(s, h);
    case GetOp => RotateKeepsHandles(s);
  }

  /** One operation that leaves `x` alone keeps an extra copy of `x` extra. */
  lemma ApplyKeepsExtra<H>(t: seq<H>, u: seq<H>, op: PoolOp<H>, x: H)
    requires multiset(t) == multiset(u) + multiset{x}
    requires op != AddOp(x) && op != RemoveOp(x)
    ensures multiset(Apply(t, op)) == multiset(Apply(u, op)) + multiset{x}
  {
    match op
    case AddOp(h) =>
    case RemoveOp(h) =>
      RemoveFirstMultiset(t, h);
      RemoveFirstMultiset(u, h);
      assert h in t <==> h in u by {
        assert h in t <==> multiset(t)[h] > 0;
        assert h in u <==> multiset(u)[h] > 0;
      }
    case GetOp =>
      RotateKeepsHandles(t);
      RotateKeepsHandles(u);
  }

  /**
   * One extra copy of `x` in the pool survives every operation that leaves
   * `x` alone: the two pools keep differing by exactly that copy.
   */
  lemma {:induction false} ReplayKeepsExtra<H>(t: seq<H>, u: seq<H>, ops: seq<PoolOp<H>>, x: H)
    requires multiset(t) == multiset(u) + multiset{x}
    requires LeavesAlone(ops, x)
    ensures multiset(Replay(t, ops)) == multiset(Replay(u, ops)) + multiset{x}
    decreases |ops|
  {
    if ops != [] {
      ApplyKeepsExtra(t, u, ops[0], x);
      assert LeavesAlone(ops[1..], x) by {
        forall i | 0 <= i < |ops| - 1 ensures ops[1..][i] != AddOp(x) && ops[1..][i] != RemoveOp(x) {
          assert ops[1..][i] == ops[i + 1];
        }
      }
      ReplayKeepsExtra(Apply(t, ops[0]), Apply(u, ops[0]), ops[1..], x);
    }
  }

  /**
   * The lifecycle of one worker: whatever other tasks do to the pool while it
   * serves (as long as they leave its own handle alone), adding a fresh
   * handle and later removing it leaves the same connections registered as if
   * the worker had never connected. Only the rotation position may differ.
   */
  lemma WorkerLifecycle<H>(s: seq<H>, ops: seq<PoolOp<H>>, x: H)
    requires x !in s
    requires LeavesAlone(ops, x)
    ensures x in Replay(s + [x], ops)
    ensures multiset(RemoveFirst(Replay(s + [x], ops), x)) == multiset(Replay(s, ops))
  {
    ReplayKeepsExtra(s + [x], s, ops, x);
    var t := Replay(s + [x], ops);
    assert multiset(t)[x] > 0;
    RemoveFirstMultiset(t, x);
  }

  /**
   * The worker endpoint's effect on the pool when it runs alone: an upgrade
   * that failed (`None`) touches nothing; an upgraded connection is added,
   * serves, and is removed again on exit, restoring the pool exactly.
   */
  method HandleWebSocket<H(==)>(pool: ConnPool<H>, upgraded: Option<H>)
    modifies pool
    ensures upgraded.None? ==> pool.conns == old(pool.conns)
    ensures upgraded.Some? && upgraded.value !in old(pool.conns) ==> pool.conns == old(pool.conns)
    ensures upgraded.Some? ==> multiset(pool.conns) == multiset(old(pool.conns))
  {
    if upgraded.None? {
      return;
    }
    var conn := upgraded.value;
    pool.Add(conn);
    pool.Remove(conn);
    RemoveFirstMultiset(old(pool.conns) + [conn], conn);
    if conn !in old(pool.conns) {
      AddThenRemoveRestores(old(pool.conns), conn);
    }
  }
}
