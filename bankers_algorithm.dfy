/** The arbiter of bankers_algorithm.c. The program keeps the ledger in
    global fixed-size buffers (MAX_PROCESSES by MAX_RESOURCES) of which the
    first P rows and R columns are in use; each of `requestResources` and
    `releaseResources` runs under one semaphore and is modelled here as one
    atomic method of the class `Bank`. */
module BankersAlgorithm {
  import opened ResourceLedger
  import opened Safety

  /** Capacity of the global buffers (MAX_PROCESSES and MAX_RESOURCES). */
  const MaxProcesses: nat := 100
  const MaxResources: nat := 100

  /** `gera_rand(max, min)` with the value of `rand()` given as `r`: a value
      between `min` and `max`. Since `rand()` is never negative, C's
      truncating `%` agrees with Dafny's `%` here. */
  function GeraRand(max: int, min: int, r: nat): (v: int)
    requires max - min + 1 != 0
    ensures min <= max ==> min <= v <= max
  {
    r % (max - min + 1) + min
  }

  /** Every value from `min` to `max` is drawn for some value of `rand()`. */
  lemma GeraRandOnto(max: int, min: int, v: int) returns (r: nat)
    requires min <= v <= max
    ensures GeraRand(max, min, r) == v
  {
    r := v - min;
  }

  class Bank {
    /** Number of processes and of resource types in use. */
    const P: nat
    const R: nat

    const available: array<int>
    const max: array2<int>
    const allocation: array2<int>
    const need: array2<int>

    ghost predicate Valid()
    {
      && P <= MaxProcesses && R <= MaxResources
      && available.Length == MaxResources
      && max.Length0 == MaxProcesses && max.Length1 == MaxResources
      && allocation.Length0 == MaxProcesses && allocation.Length1 == MaxResources
      && need.Length0 == MaxProcesses && need.Length1 == MaxResources
      && max != allocation && max != need && allocation != need
    }

    /** The ledger the buffers currently hold. */
    ghost function Snapshot(): (l: Ledger)
      requires Valid()
      reads available, max, allocation, need
      ensures l.WellFormed() && l.Clients() == P && l.Resources() == R
    {
      Ledger(available[..R], Grid(max, P, R), Grid(allocation, P, R), Grid(need, P, R))
    }

    /** The buffers hold `l`, entry by entry. */
    ghost predicate Holds(l: Ledger)
      requires Valid()
      reads available, max, allocation, need
    {
      && l.WellFormed() && l.Clients() == P && l.Resources() == R
      && (forall j :: 0 <= j < R ==> available[j] == l.available[j])
      && (forall i, j :: 0 <= i < P && 0 <= j < R ==>
            && max[i, j] == l.max[i][j]
            && allocation[i, j] == l.allocation[i][j]
            && need[i, j] == l.need[i][j])
    }

    lemma HoldsSnapshot(l: Ledger)
      requires Valid() && Holds(l)
      ensures Snapshot() == l
    {
      var s := Snapshot();
      assert s.available == l.available;
      assert s.max == l.max by {
        forall i | 0 <= i < P ensures s.max[i] == l.max[i] { }
      }
      assert s.allocation == l.allocation by {
        forall i | 0 <= i < P ensures s.allocation[i] == l.allocation[i] { }
      }
      assert s.need == l.need by {
        forall i | 0 <= i < P ensures s.need[i] == l.need[i] { }
      }
    }

    /** The state after the bootstrap in `main`: `available` and `max` hold
        the given draws, nothing is allocated and every need is the maximum
        claim. */
    constructor (p: nat, r: nat, initialAvailable: seq<int>, maxClaims: seq<seq<int>>)
      requires p <= MaxProcesses && r <= MaxResources
      requires |initialAvailable| == r && IsMatrix(maxClaims, p, r)
      ensures Valid() && P == p && R == r
      ensures fresh(available) && fresh(max) && fresh(allocation) && fresh(need)
      ensures Snapshot() == Initial(initialAvailable, maxClaims)
    {
      P, R := p, r;
      available := new int[MaxResources](j => if 0 <= j < |initialAvailable| then initialAvailable[j] else 0);
      max := new int[MaxProcesses, MaxResources]((i, j) => if 0 <= i < |maxClaims| && 0 <= j < |maxClaims[i]| then maxClaims[i][j] else 0);
      allocation := new int[MaxProcesses, MaxResources]((i, j) => 0);
      need := new int[MaxProcesses, MaxResources]((i, j) => if 0 <= i < |maxClaims| && 0 <= j < |maxClaims[i]| then maxClaims[i][j] else 0);
      new;
      HoldsSnapshot(Initial(initialAvailable, maxClaims));
    }

    /** `isSafe`: sweeps over the unfinished processes with a local copy
        `work` of `available`, finishing every process whose need fits in
        `work` and adding its allocation to `work`, until all are finished
        (safe) or a whole sweep finishes nobody (unsafe). The answer is
        exactly whether a safe order exists, whenever no allocation is
        negative; a `true` answer always exhibits one. Nothing of the bank
        is modified, and the loop ends after at most P sweeps. */
    method IsSafe() returns (safe: bool)
      requires Valid()
      ensures safe ==> Safe(Snapshot())
      ensures !safe && NonNegativeAllocation(Snapshot()) ==> !Safe(Snapshot())
    {
      ghost var l := Snapshot();
      var work := new int[MaxResources];
      var finish := new bool[MaxProcesses](_ => false);

      for i := 0 to R
        modifies work
        invariant work[..i] == available[..i]
      {
        work[i] := available[i];
      }
      // The processes finished so far, in the order the sweeps found them.
      ghost var order: seq<nat> := [];
      ghost var done: set<nat> := {};
      WorkNobody(l);
      assert finish[..P] == seq(P, _ => false);

      var count := 0;
      while count < P
        invariant Sweeping(l, order, done, finish[..P], work[..R]) && count == |order|
        decreases P - count
      {
        var found;
        found, count, order, done := Sweep(work, finish, count, l, order, done);
        if !found {
          if NonNegativeAllocation(l) {
            StuckImpliesUnsafe(l, order);
          }
          return false;
        }
      }
      DistinctBelow(order, P);
      assert SafeOrder(l, order);
      return true;
    }

    /** One pass of `isSafe`'s outer loop: the `for` loop over every
        process. Each unfinished process whose need fits in `work` is
        finished on the spot and its allocation is added to `work`, so a
        later process in the same pass already sees the larger `work`.
        `found` reports whether anybody finished; if nobody did, no
        unfinished process fits in `work`. */
    method Sweep(work: array<int>, finish: array<bool>, count: nat, ghost l: Ledger, ghost order: seq<nat>, ghost done: set<nat>)
      returns (found: bool, count': nat, ghost order': seq<nat>, ghost done': set<nat>)
      requires Valid() && Snapshot() == l
      requires work.Length == MaxResources && finish.Length == MaxProcesses
      requires work != available
      requires Sweeping(l, order, done, finish[..P], work[..R]) && count == |order|
      modifies work, finish
      ensures Sweeping(l, order', done', finish[..P], work[..R]) && count' == |order'|
      ensures found <==> count' > count
      ensures !found ==> Stuck(l, done', P, work[..R])
    {
      found, count', order', done' := false, count, order, done;
      for p: nat := 0 to P
        invariant Sweeping(l, order', done', finish[..P], work[..R]) && count' == |order'|
        invariant count' >= count && (found <==> count' > count)
        invariant !found ==> Stuck(l, done', p, work[..R])
      {
        if finish[p] {
          if !found {
            StuckStep(l, done', p, work[..R]);
          }
        } else {
          var fits := NeedFits(p, work);
          if !fits && !found {
            StuckStep(l, done', p, work[..R]);
          }
          if fits {
            ghost var fin, w := finish[..P], work[..R];
            AddAllocation(p, work);
            finish[p] := true;
            SweepStep(l, order', done', fin, w, p, finish[..P], work[..R]);
            found := true;
            count' := count' + 1;
            order' := order' + [p];
            done' := done' + {p};
          }
        }
      }
    }

    /** The test of `isSafe` whether process `p`'s need fits in `work`:
        it stops at the first resource that does not fit. */
    method NeedFits(p: nat, work: array<int>) returns (fits: bool)
      requires Valid() && p < P && R <= work.Length
      ensures fits <==> Fits(Snapshot().need[p], work[..R])
    {
      var j := 0;
      while j < R
        invariant 0 <= j <= R
        invariant forall jj :: 0 <= jj < j ==> need[p, jj] <= work[jj]
      {
        if need[p, j] > work[j] {
          break;
        }
        j := j + 1;
      }
      fits := j == R;
      assert fits ==> forall jj :: 0 <= jj < R ==> Snapshot().need[p][jj] <= work[..R][jj];
    }

    /** `isSafe` lets process `p` finish: its allocation is added to `work`. */
    method AddAllocation(p: nat, work: array<int>)
      requires Valid() && p < P && R <= work.Length
      modifies work
      ensures work[..R] == Add(old(work[..R]), Snapshot().allocation[p])
      ensures work[R..] == old(work[R..])
    {
      for k := 0 to R
        invariant forall kk :: 0 <= kk < k ==> work[kk] == old(work[kk]) + allocation[p, kk]
        invariant forall kk :: k <= kk < work.Length ==> work[kk] == old(work[kk])
      {
        work[k] := work[k] + allocation[p, k];
      }
      assert forall kk :: 0 <= kk < R ==> work[..R][kk] == Add(old(work[..R]), Snapshot().allocation[p])[kk];
    }

    /** The tentative grant of `requestResources`: `request` leaves the
        pool and joins the process's allocation, and its need shrinks. */
    method ApplyRequest(process: nat, request: seq<int>)
      requires Valid() && process < P && |request| == R
      modifies available, allocation, need
      ensures Snapshot() == Grant(old(Snapshot()), process, request)
    {
      ghost var s := Snapshot();
      for i := 0 to R
        invariant forall k :: 0 <= k < R ==>
                    && available[k] == old(available[k]) - (if k < i then request[k] else 0)
                    && allocation[process, k] == old(allocation[process, k]) + (if k < i then request[k] else 0)
                    && need[process, k] == old(need[process, k]) - (if k < i then request[k] else 0)
        invariant forall q, k :: 0 <= q < P && 0 <= k < R && q != process ==>
                    allocation[q, k] == old(allocation[q, k]) && need[q, k] == old(need[q, k])
      {
        available[i] := available[i] - request[i];
        allocation[process, i] := allocation[process, i] + request[i];
        need[process, i] := need[process, i] - request[i];
      }
      HoldsSnapshot(Grant(s, process, request));
    }

    /** The rollback of `requestResources`: the exact inverse of the
        tentative grant. */
    method UndoRequest(process: nat, request: seq<int>)
      requires Valid() && process < P && |request| == R
      modifies available, allocation, need
      ensures Snapshot() == Undo(old(Snapshot()), process, request)
    {
      ghost var s := Snapshot();
      for i := 0 to R
        invariant forall k :: 0 <= k < R ==>
                    && available[k] == old(available[k]) + (if k < i then request[k] else 0)
                    && allocation[process, k] == old(allocation[process, k]) - (if k < i then request[k] else 0)
                    && need[process, k] == old(need[process, k]) + (if k < i then request[k] else 0)
        invariant forall q, k :: 0 <= q < P && 0 <= k < R && q != process ==>
                    allocation[q, k] == old(allocation[q, k]) && need[q, k] == old(need[q, k])
      {
        available[i] := available[i] + request[i];
        allocation[process, i] := allocation[process, i] - request[i];
        need[process, i] := need[process, i] + request[i];
      }
      HoldsSnapshot(Undo(s, process, request));
    }

    /** `requestResources`: refuses a request that exceeds the process's need
        or what is available, without touching the ledger; otherwise applies
        it, and keeps it only if the result is safe, undoing it exactly
        otherwise. */
    method RequestResources(process: nat, request: seq<int>) returns (granted: bool)
      requires Valid() && process < P && |request| == R
      modifies available, allocation, need
      ensures granted ==> Admissible(old(Snapshot()), process, request)
      ensures granted ==> Snapshot() == Grant(old(Snapshot()), process, request) && Safe(Snapshot())
      ensures !granted ==> Snapshot() == old(Snapshot())
      ensures Balanced(old(Snapshot())) ==> Balanced(Snapshot())
      ensures Consistent(old(Snapshot())) && NonNegative(request) ==> Consistent(Snapshot())
      ensures NonNegativeAllocation(old(Snapshot())) && NonNegative(request) ==>
                (granted <==> Admissible(old(Snapshot()), process, request)
                              && Safe(Grant(old(Snapshot()), process, request)))
      ensures Totals(Snapshot()) == Totals(old(Snapshot()))
    {
      ghost var s := Snapshot();
      for i := 0 to R
        invariant forall k :: 0 <= k < i ==> request[k] <= s.need[process][k] && request[k] <= s.available[k]
      {
        if request[i] > need[process, i] {
          return false;
        }
        if request[i] > available[i] {
          return false;
        }
      }

      ghost var g := Grant(s, process, request);
      GrantThenUndo(s, process, request);
      GrantConservesTotals(s, process, request);
      if Balanced(s) {
        GrantBalanced(s, process, request);
      }
      if Consistent(s) && NonNegative(request) {
        GrantConsistent(s, process, request);
      }
      ApplyRequest(process, request);
      var safe := IsSafe();
      if safe {
        return true;
      }
      UndoRequest(process, request);
      return false;
    }

    /** `releaseResources`: the process hands back its whole allocation and
        its need is reset to its maximum claim. */
    method ReleaseResources(process: nat)
      requires Valid() && process < P
      modifies available, allocation, need
      ensures Snapshot() == Release(old(Snapshot()), process, old(Snapshot()).max[process])
      ensures Totals(Snapshot()) == Totals(old(Snapshot()))
      ensures Balanced(old(Snapshot())) ==> Balanced(Snapshot())
      ensures Consistent(old(Snapshot())) ==> Consistent(Snapshot())
      ensures Balanced(old(Snapshot())) && NonNegativeAllocation(old(Snapshot())) && Safe(old(Snapshot())) ==>
                Safe(Snapshot())
    {
      ghost var s := Snapshot();
      ghost var r := Release(s, process, s.max[process]);
      ReleaseResetFacts(s, process);
      for i := 0 to R
        invariant forall k :: 0 <= k < R ==>
                    && available[k] == old(available[k]) + (if k < i then old(allocation[process, k]) else 0)
                    && allocation[process, k] == (if k < i then 0 else old(allocation[process, k]))
                    && need[process, k] == (if k < i then max[process, k] else old(need[process, k]))
        invariant forall q, k :: 0 <= q < P && 0 <= k < R && q != process ==>
                    allocation[q, k] == old(allocation[q, k]) && need[q, k] == old(need[q, k])
      {
        available[i] := available[i] + allocation[process, i];
        allocation[process, i] := 0;
        need[process, i] := max[process, i];
      }
      HoldsSnapshot(r);
    }

    /** `processCode` with its request given: a granted request is used and
        then released. Since the release hands back everything the process
        holds, a granted round has the same net effect as the release alone. */
    method ProcessCode(process: nat, request: seq<int>) returns (granted: bool)
      requires Valid() && process < P && |request| == R
      modifies available, allocation, need
      ensures granted ==> Safe(Grant(old(Snapshot()), process, request))
      ensures granted ==> Snapshot() == Release(old(Snapshot()), process, old(Snapshot()).max[process])
      ensures !granted ==> Snapshot() == old(Snapshot())
      ensures Totals(Snapshot()) == Totals(old(Snapshot()))
      ensures Balanced(old(Snapshot())) ==> Balanced(Snapshot())
      ensures NonNegativeAllocation(old(Snapshot())) && NonNegative(request) ==>
                (granted <==> Admissible(old(Snapshot()), process, request)
                              && Safe(Grant(old(Snapshot()), process, request)))
    {
      ghost var s := Snapshot();
      granted := RequestResources(process, request);
      if granted {
        ReleaseResources(process);
        GrantThenRelease(s, process, request);
      }
    }
  }

  /** Two processes share 5 units of one resource and claim 3 and 4 of them.
      Process 0 asking for 3 is granted: it can finish and free enough for
      process 1. Process 1 asking for 5, more than its claim, is refused.
      Once process 0 has released, all 5 units are free again. */
  method TwoProcesses() returns (granted: bool, refused: bool, supply: seq<int>)
    ensures granted && refused && supply == [5]
  {
    var bank := new Bank(2, 1, [5], [[3], [4]]);
    TwoProcessesFacts();
    granted := bank.ProcessCode(0, [3]);
    var second := bank.RequestResources(1, [5]);
    refused := !second;
    supply := bank.available[..1];
  }

  /** The ledger of `TwoProcesses` before and after process 0's round. */
  lemma TwoProcessesFacts()
    ensures var l := Initial([5], [[3], [4]]);
      && l.WellFormed() && NonNegativeAllocation(l)
      && Admissible(l, 0, [3]) && Safe(Grant(l, 0, [3]))
      && Release(l, 0, l.max[0]) == Ledger([5], [[3], [4]], [[0], [0]], [[3], [4]])
      && !Admissible(Ledger([5], [[3], [4]], [[0], [0]], [[3], [4]]), 1, [5])
  {
    var l := Initial([5], [[3], [4]]);
    assert Zeros(1) == [0];
    assert l.allocation == [[0], [0]];
    assert Add([5], [0]) == [5];
    var after := Ledger([5], [[3], [4]], [[0], [0]], [[3], [4]]);
    assert [5][0] > after.need[1][0];
    TwoProcessesGrantSafe();
  }

  /** The state after granting 3 units to process 0 is safe: 0 finishes with
      the 2 free units, then 1 finishes with the 5 that 0 hands back. */
  lemma TwoProcessesGrantSafe()
    ensures Safe(Grant(Initial([5], [[3], [4]]), 0, [3]))
  {
    var l := Grant(Initial([5], [[3], [4]]), 0, [3]);
    assert Zeros(1) == [0];
    assert Add([0], [3]) == [3] && Sub([3], [3]) == [0] && Sub([5], [3]) == [2];
    assert l.allocation == [[3], [0]] && l.need == [[0], [4]] && l.available == [2];
    var o: seq<nat> := [0, 1];
    assert o[..0] == [] && o[..1] == [0];
    assert Members(o[..0]) == {} && Members(o[..1]) == {0};
    assert Work(l, {})[0] == 2;
    assert Work(l, {0})[0] == 5;
    assert SafeOrder(l, o);
  }

  /** The bootstrap of `main` draws each claim from 1 to 10 whatever the
      supply, so the very first ledger can be unsafe: with draws 0 and 1
      (`BootstrapDraws`) one process claims 2 units of a resource of which
      only 1 exists.
      In such a ledger no request is ever granted (`GrantKeepsUnsafe`). */
  lemma BootstrapDraws()
    ensures GeraRand(10, 1, 0) == 1 && GeraRand(10, 1, 1) == 2
  {
    assert 0 % 10 == 0 && 1 % 10 == 1;
  }

  lemma BootstrapMayBeUnsafe()
    ensures Consistent(Initial([GeraRand(10, 1, 0)], [[GeraRand(10, 1, 1)]]))
    ensures !Safe(Initial([GeraRand(10, 1, 0)], [[GeraRand(10, 1, 1)]]))
  {
    BootstrapDraws();
    ShortSupplyUnsafe();
  }

  /** One unit of supply against a claim of two: nobody can ever finish. */
  lemma ShortSupplyUnsafe()
    ensures Consistent(Initial([1], [[2]]))
    ensures !Safe(Initial([1], [[2]]))
  {
    var l := Initial([1], [[2]]);
    InitialConsistent([1], [[2]]);
    WorkNobody(l);
    var none: seq<nat> := [];
    assert Members(none) == {};
    forall q: nat | q < l.Clients() && q !in Members(none)
      ensures !Fits(l.need[q], Work(l, Members(none)))
    {
      assert l.need[q][0] > Work(l, {})[0];
    }
    StuckImpliesUnsafe(l, none);
  }
}
