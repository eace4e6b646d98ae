/**
 * The connection pool of the bridge: an ordered list of worker connection
 * handles, updated in place by `Add`, `Remove` and `Get`. Handles are values
 * of an opaque type compared by identity, as Go compares connection pointers.
 */
module Pool {
  import opened Wrappers
  import opened PoolSpec

  class ConnPool<H(==)> {
    /** The registered connections, in rotation order. */
    var conns: seq<H>

    /** A fresh pool holds no connections. */
    constructor ()
      ensures conns == []
    {
      conns := [];
    }

    /** Appends `conn` at the end; there is no duplicate check. */
    method Add(conn: H)
      modifies this
      ensures conns == old(conns) + [conn]
      ensures |conns| == |old(conns)| + 1 && conns[..|old(conns)|] == old(conns)
      ensures multiset(conns)[conn] == multiset(old(conns))[conn] + 1
    {
      conns := conns + [conn];
    }

    /**
     * Deletes the first entry equal to `conn`, keeping the others in order;
     * does nothing when `conn` is not in the pool.
     */
    method Remove(conn: H)
      modifies this
      ensures conns == RemoveFirst(old(conns), conn)
      ensures conn !in old(conns) ==> conns == old(conns)
      ensures conn in old(conns) ==>
        exists i :: 0 <= i < |old(conns)| && old(conns)[i] == conn && conn !in old(conns)[..i] &&
          conns == old(conns)[..i] + old(conns)[i + 1..]
    {
      var i := 0;
      while i < |conns|
        invariant 0 <= i <= |conns|
        invariant conns == old(conns)
        invariant conn !in conns[..i]
      {
        if conns[i] == conn {
          RemoveFirstSplices(conns, conn, i);
          conns := conns[..i] + conns[i + 1..];
          return;
        }
        assert conns[..i + 1] == conns[..i] + [conns[i]];
        i := i + 1;
      }
      assert conns[..i] == conns;
      RemoveFirstAbsent(conns, conn);
    }

    /**
     * Returns nothing on an empty pool; otherwise returns the head and moves
     * it to the tail, so repeated calls cycle through the pool.
     */
    method Get() returns (conn: Option<H>)
      modifies this
      ensures conn == Front(old(conns)) && conns == Rotate(old(conns))
      ensures old(conns) == [] ==> conn == None && conns == []
      ensures old(conns) != [] ==>
        conn == Some(old(conns)[0]) && conns == old(conns)[1..] + [old(conns)[0]]
      ensures multiset(conns) == multiset(old(conns))
      ensures conn.Some? ==> conn.value in conns
    {
      RotateKeepsHandles(conns);
      if |conns| == 0 {
        return None;
      }
      var head := conns[0];
      conns := conns[1..] + [head];
      conn := Some(head);
    }
  }
}
