/** Safe states of the Banker's algorithm. A state is safe when the clients
    can finish one after another, each obtaining its whole remaining need
    from what is free once the clients before it have handed back their
    allocation. This module defines that notion on ledger values and proves
    the facts the arbiter relies on: a sweep that gets stuck shows the state
    is unsafe, a grant never turns an unsafe state into a safe one, and a
    release never turns a safe state into an unsafe one. */
module Safety {
  import opened ResourceLedger

  function Members(o: seq<nat>): set<nat>
  {
    set x | x in o
  }

  predicate Distinct(o: seq<nat>)
  {
    forall a, b :: 0 <= a < b < |o| ==> o[a] != o[b]
  }

  /** The clients of `o` are distinct, exist, and can finish in that order. */
  ghost predicate PrefixSafe(l: Ledger, o: seq<nat>)
    requires l.WellFormed()
  {
    && Distinct(o)
    && (forall k :: 0 <= k < |o| ==> o[k] < l.Clients())
    && forall k :: 0 <= k < |o| ==> Fits(l.need[o[k]], Work(l, Members(o[..k])))
  }

  /** An order in which every client can finish. */
  ghost predicate SafeOrder(l: Ledger, o: seq<nat>)
    requires l.WellFormed()
  {
    |o| == l.Clients() && PrefixSafe(l, o)
  }

  ghost predicate Safe(l: Ledger)
    requires l.WellFormed()
  {
    exists o :: SafeOrder(l, o)
  }

  // ---------------------------------------------------------------------
  // Counting distinct clients

  lemma {:induction false} DistinctMembers(o: seq<nat>)
    requires Distinct(o)
    ensures |Members(o)| == |o|
  {
    if o != [] {
      var init := o[..|o| - 1];
      DistinctMembers(init);
      assert Members(o) == Members(init) + {o[|o| - 1]};
    }
  }

  lemma {:induction false} EveryoneSize(n: nat)
    ensures |Everyone(n)| == n
  {
    if n > 0 {
      EveryoneSize(n - 1);
    }
  }

  lemma {:induction false} SubsetSize(a: set<nat>, b: set<nat>)
    requires a <= b
    ensures |a| <= |b|
  {
    if a != {} {
      var x :| x in a;
      SubsetSize(a - {x}, b - {x});
    }
  }

  /** A sequence of distinct clients below `n` lists at most `n` of them. */
  lemma DistinctBelow(o: seq<nat>, n: nat)
    requires Distinct(o) && forall k :: 0 <= k < |o| ==> o[k] < n
    ensures |o| <= n
  {
    DistinctMembers(o);
    EveryoneSize(n);
    SubsetSize(Members(o), Everyone(n));
  }

  /** Appending a client that fits keeps an order safe. */
  lemma PrefixSafeExtend(l: Ledger, o: seq<nat>, p: nat)
    requires l.WellFormed() && PrefixSafe(l, o)
    requires p < l.Clients() && p !in Members(o)
    requires Fits(l.need[p], Work(l, Members(o)))
    ensures PrefixSafe(l, o + [p])
    ensures Members(o + [p]) == Members(o) + {p}
  {
    var o' := o + [p];
    forall k | 0 <= k < |o'|
      ensures Fits(l.need[o'[k]], Work(l, Members(o'[..k])))
    {
      if k < |o| {
        assert o'[..k] == o[..k];
      } else {
        assert o'[..k] == o;
      }
    }
    assert Members(o') == Members(o) + {p};
  }

  /** A client's predecessors in a distinct order never include itself. */
  lemma NotBefore(o: seq<nat>, k: nat)
    requires Distinct(o) && k < |o|
    ensures o[k] !in Members(o[..k])
  {
  }

  /** The state of a greedy sweep: the clients of `order` have finished,
      in that order, `fin` flags exactly them, and `w` is what they free. */
  ghost predicate Sweeping(l: Ledger, order: seq<nat>, done: set<nat>, fin: seq<bool>, w: seq<int>)
    requires l.WellFormed()
  {
    && PrefixSafe(l, order) && done == Members(order)
    && |fin| == l.Clients()
    && (forall q :: 0 <= q < |fin| ==> (fin[q] <==> q in done))
    && w == Work(l, done)
  }

  /** Finishing an unfinished client that fits keeps the sweep's state. */
  lemma SweepStep(l: Ledger, order: seq<nat>, done: set<nat>, fin: seq<bool>, w: seq<int>, p: nat,
                  fin': seq<bool>, w': seq<int>)
    requires l.WellFormed() && Sweeping(l, order, done, fin, w)
    requires p < l.Clients() && !fin[p] && Fits(l.need[p], w)
    requires |fin'| == |fin| && fin'[p] && forall q :: 0 <= q < |fin| && q != p ==> fin'[q] == fin[q]
    requires w' == Add(w, l.allocation[p])
    ensures Sweeping(l, order + [p], done + {p}, fin', w')
  {
    PrefixSafeExtend(l, order, p);
    WorkFinish(l, done, p);
  }

  /** No client below `p` that is not in `done` fits in `w`. */
  ghost predicate Stuck(l: Ledger, done: set<nat>, p: nat, w: seq<int>)
    requires l.WellFormed() && |w| == l.Resources()
  {
    forall q: nat :: q < p && q < l.Clients() && q !in done ==> !Fits(l.need[q], w)
  }

  lemma StuckStep(l: Ledger, done: set<nat>, p: nat, w: seq<int>)
    requires l.WellFormed() && |w| == l.Resources() && p < l.Clients()
    requires Stuck(l, done, p, w)
    requires p in done || !Fits(l.need[p], w)
    ensures Stuck(l, done, p + 1, w)
  {
  }

  // ---------------------------------------------------------------------
  // The greedy sweep is complete

  /** Against any safe order, a set of finished clients that leaves some
      client unfinished can always be extended: the first client of the
      order that is not finished fits in what the finished ones free
      (given that no allocation is negative). */
  lemma SafeOrderExtends(l: Ledger, o: seq<nat>, s: seq<nat>) returns (q: nat)
    requires l.WellFormed() && NonNegativeAllocation(l)
    requires Distinct(o) && (forall k :: 0 <= k < |o| ==> o[k] < l.Clients())
    requires |o| < l.Clients()
    requires SafeOrder(l, s)
    ensures q < l.Clients() && q !in Members(o)
    ensures Fits(l.need[q], Work(l, Members(o)))
  {
    var done := Members(o);
    // Some client of s is not in done: otherwise done would hold n clients.
    if forall i :: 0 <= i < |s| ==> s[i] in done {
      DistinctMembers(s);
      DistinctMembers(o);
      SubsetSize(Members(s), done);
      assert false;
    }
    var k := 0;
    while s[k] in done
      invariant 0 <= k < |s|
      invariant forall i :: 0 <= i < k ==> s[i] in done
      invariant exists i :: k <= i < |s| && s[i] !in done
      decreases |s| - k
    {
      k := k + 1;
    }
    // Everyone before s[k] is in done, so s[k] fits in what done frees.
    var before := Members(s[..k]);
    forall j | 0 <= j < l.Resources()
      ensures Work(l, before)[j] <= Work(l, done)[j]
    {
      SumOverMonotone(l.allocation, before, done, j, l.Clients());
    }
    q := s[k];
  }

  /** If no unfinished client fits once the clients of `o` have finished,
      and some client is unfinished, then no safe order exists at all. */
  lemma StuckImpliesUnsafe(l: Ledger, o: seq<nat>)
    requires l.WellFormed() && NonNegativeAllocation(l)
    requires Distinct(o) && (forall k :: 0 <= k < |o| ==> o[k] < l.Clients())
    requires |o| < l.Clients()
    requires forall q: nat :: q < l.Clients() && q !in Members(o) ==> !Fits(l.need[q], Work(l, Members(o)))
    ensures !Safe(l)
  {
    if s :| SafeOrder(l, s) {
      var q := SafeOrderExtends(l, o, s);
      assert false;
    }
  }

  // ---------------------------------------------------------------------
  // How the arbiter's operations affect safety

  /** A non-negative grant never makes an unsafe state safe: every order
      that is safe after the grant was already safe before it. */
  lemma GrantKeepsUnsafe(l: Ledger, p: nat, req: seq<int>)
    requires l.WellFormed() && p < l.Clients() && |req| == l.Resources()
    requires NonNegative(req)
    requires !Safe(l)
    ensures Grant(l, p, req).WellFormed()
    ensures !Safe(Grant(l, p, req))
  {
    var g := Grant(l, p, req);
    if o :| SafeOrder(g, o) {
      forall k | 0 <= k < |o|
        ensures Fits(l.need[o[k]], Work(l, Members(o[..k])))
      {
        var before := Members(o[..k]);
        NotBefore(o, k);
        forall j | 0 <= j < l.Resources()
          ensures l.need[o[k]][j] <= Work(l, before)[j]
        {
          SumOverUpdate(l.allocation, before, p, Add(l.allocation[p], req), j, l.Clients());
          assert g.need[o[k]][j] <= Work(g, before)[j];
        }
      }
      assert SafeOrder(l, o);
      assert false;
    }
  }

  /** Releasing client `p` keeps a safe state safe, provided its new need
      row does not exceed its old need plus what it handed back. */
  lemma ReleaseKeepsSafe(l: Ledger, p: nat, needAfter: seq<int>)
    requires l.WellFormed() && p < l.Clients() && |needAfter| == l.Resources()
    requires NonNegative(l.allocation[p])
    requires Fits(needAfter, Add(l.need[p], l.allocation[p]))
    requires Safe(l)
    ensures Release(l, p, needAfter).WellFormed()
    ensures Safe(Release(l, p, needAfter))
  {
    var r := Release(l, p, needAfter);
    var o :| SafeOrder(l, o);
    forall k | 0 <= k < |o|
      ensures Fits(r.need[o[k]], Work(r, Members(o[..k])))
    {
      var before := Members(o[..k]);
      NotBefore(o, k);
      forall j | 0 <= j < l.Resources()
        ensures r.need[o[k]][j] <= Work(r, before)[j]
      {
        SumOverUpdate(l.allocation, before, p, Zeros(l.Resources()), j, l.Clients());
        assert l.need[o[k]][j] <= Work(l, before)[j];
      }
    }
    assert SafeOrder(r, o);
  }

  /** A ledger in which nothing is allocated and each client's need fits in
      what is available is safe: the clients can finish in index order. */
  lemma IdleSafe(l: Ledger)
    requires l.WellFormed()
    requires forall i :: 0 <= i < l.Clients() ==> l.allocation[i] == Zeros(l.Resources())
    requires forall i :: 0 <= i < l.Clients() ==> Fits(l.need[i], l.available)
    ensures Safe(l)
  {
    var o: seq<nat> := seq(l.Clients(), i requires 0 <= i => i);
    forall k | 0 <= k < |o|
      ensures Fits(l.need[o[k]], Work(l, Members(o[..k])))
    {
      WorkIdle(l, Members(o[..k]));
    }
    assert SafeOrder(l, o);
  }

  /** What `finaliza_cliente` promises of a ledger when it releases client
      `p` and leaves its need row as it was: the totals stay, and a safe
      state with no negative allocation stays safe. */
  lemma ReleaseFinishedFacts(l: Ledger, p: nat)
    requires l.WellFormed() && p < l.Clients()
    ensures Release(l, p, l.need[p]).WellFormed()
    ensures Totals(Release(l, p, l.need[p])) == Totals(l)
    ensures NonNegativeAllocation(l) ==> NonNegativeAllocation(Release(l, p, l.need[p]))
    ensures NonNegativeAllocation(l) && Safe(l) ==> Safe(Release(l, p, l.need[p]))
  {
    ReleaseConservesTotals(l, p, l.need[p]);
    if NonNegativeAllocation(l) && Safe(l) {
      ReleaseKeepsSafe(l, p, l.need[p]);
    }
  }

  /** What `releaseResources` promises of a ledger: the totals stay, a
      balanced or consistent ledger stays so, and a safe one stays safe. */
  lemma ReleaseResetFacts(l: Ledger, p: nat)
    requires l.WellFormed() && p < l.Clients()
    ensures Release(l, p, l.max[p]).WellFormed()
    ensures Totals(Release(l, p, l.max[p])) == Totals(l)
    ensures Balanced(l) ==> Balanced(Release(l, p, l.max[p]))
    ensures Consistent(l) ==> Consistent(Release(l, p, l.max[p]))
    ensures Balanced(l) && NonNegativeAllocation(l) && Safe(l) ==> Safe(Release(l, p, l.max[p]))
  {
    ReleaseConservesTotals(l, p, l.max[p]);
    if Balanced(l) && NonNegativeAllocation(l) && Safe(l) {
      ReleaseKeepsSafe(l, p, l.max[p]);
    }
  }
}
