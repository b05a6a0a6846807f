// Node selection of the FIFO scheduler: the loop of sched in sched_fifo.c over the node pool.
module FifoNodes {
  import opened Sums

  // The node pool is a pointer array: slots that hold a node, and empty ones.
  type Pool = seq<Option<nat>>

  // The nodes of a pool, in pool order.
  function Live(pool: Pool): seq<nat> {
    if pool == [] then []
    else
      var n := |pool| - 1;
      Live(pool[..n]) + (if pool[n].Some? then [pool[n].value] else [])
  }

  ghost predicate Distinct(pool: Pool) {
    forall i, j :: 0 <= i < j < |pool| && pool[i].Some? ==> pool[i] != pool[j]
  }

  // Live forgets the empty slots and nothing else: it holds each pooled node, once.
  lemma {:induction false} LiveHoldsThePool(pool: Pool)
    ensures forall x :: x in Live(pool) <==> Some(x) in pool
    ensures Distinct(pool) ==> forall i, j :: 0 <= i < j < |Live(pool)| ==> Live(pool)[i] != Live(pool)[j]
  {
    if pool != [] {
      var n := |pool| - 1;
      LiveHoldsThePool(pool[..n]);
      assert pool == pool[..n] + [pool[n]];
      if Distinct(pool) {
        assert Distinct(pool[..n]);
        assert pool[n].Some? ==> pool[n] !in pool[..n];
      }
    }
  }

  // The picked nodes when want nodes are asked for. A count of zero or less never meets the
  // running count, so the whole pool is taken.
  function Pick(pool: Pool, want: int): seq<nat> {
    if 1 <= want <= |Live(pool)| then Live(pool)[..want] else Live(pool)
  }

  lemma {:induction false} LivePrefix(pool: Pool, n: nat)
    requires n <= |pool|
    ensures Live(pool[..n]) <= Live(pool)
  {
    if n < |pool| {
      var m := |pool| - 1;
      LivePrefix(pool[..m], n);
      assert pool[..m][..n] == pool[..n];
    } else {
      assert pool[..n] == pool;
    }
  }

  // Walks the pool until the request's node count has been reached.
  method SelectNodes(pool: Pool, want: int) returns (picked: seq<nat>)
    ensures picked == Pick(pool, want)
  {
    picked := [];
    var cnt := 0;
    for n := 0 to |pool|
      invariant cnt == |picked|
      invariant picked == Live(pool[..n])
      invariant want <= 0 || cnt < want
    {
      assert pool[..n + 1][..n] == pool[..n];
      if pool[n].None? {
        continue;
      }
      picked := picked + [pool[n].value];
      cnt := cnt + 1;
      if cnt == want {
        assert picked == Live(pool[..n + 1]);
        LivePrefix(pool, n + 1);
        return;
      }
    }
    assert pool[..|pool|] == pool;
  }

  // A request for n nodes that passes the guard gets exactly the first n nodes of the pool, each
  // once, provided the available count does not overstate the pool.
  lemma GuardedPickIsExact(pool: Pool, want: int, avail: int)
    requires 1 <= want < avail <= |Live(pool)|
    ensures |Pick(pool, want)| == want && Pick(pool, want) <= Live(pool)
    ensures forall x :: x in Pick(pool, want) ==> Some(x) in pool
    ensures Distinct(pool) ==>
      forall i, j :: 0 <= i < j < want ==> Pick(pool, want)[i] != Pick(pool, want)[j]
  {
    LiveHoldsThePool(pool);
    assert forall x :: x in Pick(pool, want) ==> x in Live(pool);
  }

  // The number of nodes handed out is the number asked for exactly when that number is positive
  // and the pool holds that many, or when both are zero. A request that gives no node count
  // receives every node.
  lemma {:induction false} PickCount(pool: Pool, want: int)
    ensures |Pick(pool, want)| == want <==> 1 <= want <= |Live(pool)| || want == 0 == |Live(pool)|
    ensures want <= 0 || want > |Live(pool)| ==> Pick(pool, want) == Live(pool)
  {
    LiveHoldsThePool(pool);
  }

  // The filled slots before n.
  function Filled(pool: Pool, n: nat): set<nat>
    requires n <= |pool|
  {
    set i: nat | i < n && pool[i].Some?
  }

  lemma FilledStep(pool: Pool, n: nat)
    requires n < |pool|
    ensures |Filled(pool, n + 1)| == |Filled(pool, n)| + if pool[n].Some? then 1 else 0
  {
    if pool[n].Some? {
      assert Filled(pool, n + 1) == Filled(pool, n) + {n};
    } else {
      assert Filled(pool, n + 1) == Filled(pool, n);
    }
  }

  lemma {:induction false} LiveLength(pool: Pool, n: nat)
    requires n <= |pool|
    ensures |Live(pool[..n])| == |Filled(pool, n)|
  {
    if n > 0 {
      LiveLength(pool, n - 1);
      FilledStep(pool, n - 1);
      assert pool[..n][..n - 1] == pool[..n - 1];
    }
  }

  // The nodes stay in pool order: each is preceded by the nodes of the filled slots before its own.
  lemma LiveInOrder(pool: Pool, i: nat)
    requires i < |pool| && pool[i].Some?
    ensures var k := |Filled(pool, i)|;
            k < |Live(pool)| && Live(pool)[k] == pool[i].value
  {
    LiveLength(pool, i);
    LivePrefix(pool, i + 1);
    assert pool[..i + 1][..i] == pool[..i];
    assert Live(pool[..i + 1]) == Live(pool[..i]) + [pool[i].value];
  }
}
