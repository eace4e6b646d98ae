/**
 * The value-level meaning of the connection pool: the pool is an ordered
 * sequence of connection handles, `Remove` deletes the first equal entry and
 * `Get` hands out the head and rotates it to the tail.
 */
module PoolSpec {
  import opened Wrappers

  /** The pool after removing the first entry equal to `x`; unchanged when there is none. */
  function RemoveFirst<H(==)>(s: seq<H>, x: H): seq<H>
  {
    if s == [] then []
    else if s[0] == x then s[1..]
    else [s[0]] + RemoveFirst(s[1..], x)
  }

  /** What `Get` hands out: nothing on an empty pool, otherwise the head. */
  function Front<H>(s: seq<H>): Option<H>
  {
    if s == [] then None else Some(s[0])
  }

  /** The pool after one `Get`: the head moves to the tail. */
  function Rotate<H>(s: seq<H>): seq<H>
  {
    if s == [] then [] else s[1..] + [s[0]]
  }

  /** The pool after `k` consecutive `Get` calls. */
  function RotateN<H>(s: seq<H>, k: nat): seq<H>
  {
    if k == 0 then s else Rotate(RotateN(s, k - 1))
  }

  /** The handles returned by `n` consecutive `Get` calls, and the pool they leave. */
  function AcquireMany<H>(s: seq<H>, n: nat): (seq<Option<H>>, seq<H>)
    decreases n
  {
    if n == 0 then ([], s)
    else
      var (outs, t) := AcquireMany(Rotate(s), n - 1);
      ([Front(s)] + outs, t)
  }

  /** Every handle of `s`, each wrapped as a non-nil `Get` result, in order. */
  function Somes<H>(s: seq<H>): (r: seq<Option<H>>)
    ensures |r| == |s|
    ensures forall i :: 0 <= i < |s| ==> r[i] == Some(s[i])
  {
    if s == [] then [] else [Some(s[0])] + Somes(s[1..])
  }

  /** No handle occurs twice. */
  predicate Distinct<H(==)>(s: seq<H>)
  {
    forall i, j :: 0 <= i < j < |s| ==> s[i] != s[j]
  }

  // ---------------------------------------------------------------------
  // Remove: first-occurrence delete
  // ---------------------------------------------------------------------

  /** Deleting at the first index holding `x` is what `RemoveFirst` does. */
  lemma {:induction false} RemoveFirstSplices<H>(s: seq<H>, x: H, i: nat)
    requires i < |s| && s[i] == x && x !in s[..i]
    ensures RemoveFirst(s, x) == s[..i] + s[i + 1..]
  {
    if i > 0 {
      assert s[0] != x by { assert s[0] == s[..i][0]; }
      var before := s[1..][..i - 1];
      assert before == s[1..i];
      assert x !in before by {
        forall k | 0 <= k < i - 1 ensures before[k] != x {
          assert before[k] == s[..i][k + 1];
        }
      }
      RemoveFirstSplices(s[1..], x, i - 1);
      assert s[1..][..i - 1] + s[1..][i..] == s[1..i] + s[i + 1..];
      assert [s[0]] + (s[1..i] + s[i + 1..]) == s[..i] + s[i + 1..];
    }
  }

  /** Removing a handle that is not in the pool changes nothing. */
  lemma {:induction false} RemoveFirstAbsent<H>(s: seq<H>, x: H)
    requires x !in s
    ensures RemoveFirst(s, x) == s
  {
    if s != [] {
      assert x !in s[1..] by { assert forall k :: 0 <= k < |s| - 1 ==> s[1..][k] == s[k + 1]; }
      RemoveFirstAbsent(s[1..], x);
      assert [s[0]] + s[1..] == s;
    }
  }

  /**
   * When `x` is present, `RemoveFirst` deletes exactly its first occurrence and
   * keeps every other entry in its relative order.
   */
  lemma RemoveFirstDeletesFirst<H>(s: seq<H>, x: H)
    requires x in s
    ensures exists i :: 0 <= i < |s| && s[i] == x && x !in s[..i] && RemoveFirst(s, x) == s[..i] + s[i + 1..]
  {
    var i := FirstIndex(s, x);
    RemoveFirstSplices(s, x, i);
  }

  /** The position of the first entry equal to `x`. */
  function FirstIndex<H(==)>(s: seq<H>, x: H): (i: nat)
    requires x in s
    ensures i < |s| && s[i] == x && x !in s[..i]
  {
    if s[0] == x then 0
    else
      assert x in s[1..] by { assert s == [s[0]] + s[1..]; }
      var j := FirstIndex(s[1..], x);
      assert s[..j + 1] == [s[0]] + s[1..][..j];
      j + 1
  }

  /** `Remove` takes out one copy of `x` if there is one, and nothing else. */
  lemma {:induction false} RemoveFirstMultiset<H>(s: seq<H>, x: H)
    ensures multiset(RemoveFirst(s, x)) == multiset(s) - multiset{x}
    ensures |RemoveFirst(s, x)| == if x in s then |s| - 1 else |s|
  {
    if s != [] {
      assert s == [s[0]] + s[1..];
      if s[0] != x {
        RemoveFirstMultiset(s[1..], x);
        assert x in s <==> x in s[1..];
      }
    }
  }

  /** A handle added to a pool that did not hold it is taken out again by `Remove`. */
  lemma AddThenRemoveRestores<H>(s: seq<H>, x: H)
    requires x !in s
    ensures RemoveFirst(s + [x], x) == s
  {
    assert (s + [x])[..|s|] == s;
    RemoveFirstSplices(s + [x], x, |s|);
  }

  /** Adding a handle the pool does not hold keeps the handles distinct. */
  lemma AddFreshKeepsDistinct<H>(s: seq<H>, x: H)
    requires Distinct(s) && x !in s
    ensures Distinct(s + [x])
  {
  }

  /** Every removal keeps the handles distinct. */
  lemma RemoveFirstKeepsDistinct<H>(s: seq<H>, x: H)
    requires Distinct(s)
    ensures Distinct(RemoveFirst(s, x))
  {
    if x in s {
      RemoveFirstDeletesFirst(s, x);
      var i :| 0 <= i < |s| && s[i] == x && x !in s[..i] && RemoveFirst(s, x) == s[..i] + s[i + 1..];
      var r := RemoveFirst(s, x);
      forall p, q | 0 <= p < q < |r| ensures r[p] != r[q] {
        var p' := if p < i then p else p + 1;
        var q' := if q < i then q else q + 1;
        assert r[p] == s[p'] && r[q] == s[q'];
      }
    } else {
      RemoveFirstAbsent(s, x);
    }
  }

  // ---------------------------------------------------------------------
  // Get: rotation and round-robin
  // ---------------------------------------------------------------------

  /** One `Get` keeps the same handles, and the handle it returns stays in the pool. */
  lemma RotateKeepsHandles<H>(s: seq<H>)
    ensures |Rotate(s)| == |s| && multiset(Rotate(s)) == multiset(s)
    ensures Front(s).Some? ==> Front(s).value in Rotate(s)
  {
    if s != [] {
      assert s == [s[0]] + s[1..];
      assert Rotate(s)[|s| - 1] == s[0];
    }
  }

  /** Rotation keeps the handles distinct. */
  lemma RotateKeepsDistinct<H>(s: seq<H>)
    requires Distinct(s)
    ensures Distinct(Rotate(s))
  {
  }

  /** With two or more distinct handles, two consecutive `Get` calls return different handles. */
  lemma ConsecutiveGetsDiffer<H>(s: seq<H>)
    requires Distinct(s) && |s| >= 2
    ensures Front(Rotate(s)).Some? && Front(s).Some? && Front(Rotate(s)) != Front(s)
  {
  }

  /** Within the first cycle, `k` gets leave the pool split at position `k`. */
  lemma {:induction false} RotateNSplit<H>(s: seq<H>, k: nat)
    requires k <= |s|
    ensures RotateN(s, k) == s[k..] + s[..k]
  {
    if k == 0 {
      assert s[0..] + s[..0] == s;
    } else {
      RotateNSplit(s, k - 1);
      var t := s[k - 1..] + s[..k - 1];
      assert t[0] == s[k - 1];
      assert t[1..] == s[k..] + s[..k - 1];
      assert s[..k - 1] + [s[k - 1]] == s[..k];
    }
  }

  /** Rotating `a + b` times is rotating `a` times and then `b` times. */
  lemma {:induction false} RotateNAdd<H>(s: seq<H>, a: nat, b: nat)
    ensures RotateN(s, a + b) == RotateN(RotateN(s, a), b)
    decreases b
  {
    if b > 0 {
      RotateNAdd(s, a, b - 1);
    }
  }

  /** Rotation has period `|s|`: after a full cycle the pool is as it started. */
  lemma RotateNPeriodic<H>(s: seq<H>, k: nat)
    ensures RotateN(s, |s|) == s
    ensures RotateN(s, k + |s|) == RotateN(s, k)
  {
    RotateNSplit(s, |s|);
    assert s[|s|..] + s[..|s|] == s;
    RotateNAdd(s, |s|, k);
  }

  /** Rotating first and then `k` times is rotating `k + 1` times. */
  lemma {:induction false} RotateNShift<H>(s: seq<H>, k: nat)
    ensures RotateN(Rotate(s), k) == RotateN(s, k + 1)
    decreases k
  {
    if k > 0 {
      RotateNShift(s, k - 1);
    }
  }

  /**
   * `n` consecutive gets: the `j`-th returns the head of the pool as it stands
   * after `j` earlier gets, and the pool ends rotated `n` times.
   */
  lemma {:induction false} AcquireManyAt<H>(s: seq<H>, n: nat)
    ensures |AcquireMany(s, n).0| == n && AcquireMany(s, n).1 == RotateN(s, n)
    ensures forall j :: 0 <= j < n ==> AcquireMany(s, n).0[j] == Front(RotateN(s, j))
    decreases n
  {
    if n > 0 {
      var r := Rotate(s);
      AcquireManyAt(r, n - 1);
      RotateNShift(s, n - 1);
      var outs := AcquireMany(s, n).0;
      assert outs == [Front(s)] + AcquireMany(r, n - 1).0;
      forall j | 0 <= j < n ensures outs[j] == Front(RotateN(s, j)) {
        if j > 0 {
          RotateNShift(s, j - 1);
        }
      }
    }
  }

  /**
   * A full cycle: with `N` entries, `N` consecutive `Get` calls return the
   * entries in their original order and leave the pool exactly as it started.
   */
  lemma FullCycle<H>(s: seq<H>)
    ensures AcquireMany(s, |s|) == (Somes(s), s)
  {
    AcquireManyAt(s, |s|);
    RotateNPeriodic(s, 0);
    var (outs, final) := AcquireMany(s, |s|);
    assert final == s;
    forall j | 0 <= j < |s| ensures outs[j] == Some(s[j]) {
      RotateNSplit(s, j);
      var t := RotateN(s, j);
      assert t[0] == s[j];
    }
    assert outs == Somes(s);
  }

  /**
   * Round-robin continues past the first cycle: the get issued `|s|` calls
   * after another returns the same handle.
   */
  lemma RoundRobinRepeats<H>(s: seq<H>, n: nat, j: nat)
    requires j + |s| < n
    ensures |AcquireMany(s, n).0| == n
    ensures AcquireMany(s, n).0[j + |s|] == AcquireMany(s, n).0[j]
  {
    AcquireManyAt(s, n);
    RotateNPeriodic(s, j);
  }

  /**
   * On a pool of distinct handles, a full cycle of `Get` calls returns every
   * handle exactly once before any repeats.
   */
  lemma FullCycleVisitsEachOnce<H>(s: seq<H>)
    requires Distinct(s)
    ensures forall h :: h in s ==> multiset(AcquireMany(s, |s|).0)[Some(h)] == 1
  {
    FullCycle(s);
    forall h | h in s ensures multiset(Somes(s))[Some(h)] == 1 {
      SomesCount(s, h);
    }
  }

  /** In the wrapped sequence of a distinct pool each handle occurs once. */
  lemma {:induction false} SomesCount<H>(s: seq<H>, h: H)
    requires Distinct(s)
    ensures multiset(Somes(s))[Some(h)] == if h in s then 1 else 0
  {
    if s != [] {
      assert Distinct(s[1..]) by {
        forall p, q | 0 <= p < q < |s| - 1 ensures s[1..][p] != s[1..][q] {
          assert s[1..][p] == s[p + 1] && s[1..][q] == s[q + 1];
        }
      }
      SomesCount(s[1..], h);
      assert Somes(s) == [Some(s[0])] + Somes(s[1..]);
      assert h in s <==> h == s[0] || h in s[1..];
      if h == s[0] {
        assert h !in s[1..] by {
          forall k | 0 <= k < |s| - 1 ensures s[1..][k] != h { assert s[1..][k] == s[k + 1]; }
        }
      }
    }
  }

  /** `Get` on an empty pool returns nothing, however often it is called. */
  lemma {:induction false} AcquireManyEmpty<H>(s: seq<H>, n: nat)
    requires s == []
    ensures |AcquireMany(s, n).0| == n && AcquireMany(s, n).1 == []
    ensures forall j :: 0 <= j < n ==> AcquireMany(s, n).0[j] == None
  {
    if n > 0 {
      AcquireManyEmpty(s, n - 1);
    }
  }
}
