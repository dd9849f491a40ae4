/** The resource ledger of the Banker's algorithm as a value: the vector of
    available units and the three client-by-resource matrices, together with
    the operations that the arbiter applies to it. Both programs
    (bankers_algorithm.c and banqueiro.c) keep this state in global arrays;
    their classes expose it through a snapshot of this type. */
module ResourceLedger {

  /** `true` when `a` has `rows` rows of `cols` entries each. */
  predicate IsMatrix(a: seq<seq<int>>, rows: nat, cols: nat)
  {
    |a| == rows && forall i :: 0 <= i < rows ==> |a[i]| == cols
  }

  predicate NonNegative(v: seq<int>)
  {
    forall j :: 0 <= j < |v| ==> v[j] >= 0
  }

  function Add(a: seq<int>, b: seq<int>): seq<int>
    requires |a| == |b|
  {
    seq(|a|, j requires 0 <= j < |a| => a[j] + b[j])
  }

  function Sub(a: seq<int>, b: seq<int>): seq<int>
    requires |a| == |b|
  {
    seq(|a|, j requires 0 <= j < |a| => a[j] - b[j])
  }

  function Zeros(m: nat): seq<int>
  {
    seq(m, _ => 0)
  }

  /** A row of demands is met by a vector of free units, entry by entry. */
  predicate Fits(row: seq<int>, work: seq<int>)
    requires |row| == |work|
  {
    forall j :: 0 <= j < |row| ==> row[j] <= work[j]
  }

  datatype Ledger = Ledger(
    available: seq<int>,
    max: seq<seq<int>>,
    allocation: seq<seq<int>>,
    need: seq<seq<int>>)
  {
    function Clients(): nat { |max| }

    function Resources(): nat { |available| }

    predicate WellFormed()
    {
      && IsMatrix(max, Clients(), Resources())
      && IsMatrix(allocation, Clients(), Resources())
      && IsMatrix(need, Clients(), Resources())
    }
  }

  /** The first `rows` by `cols` entries of a buffer, row by row: how a
      class reads a matrix of the ledger out of the array that holds it. */
  ghost function Grid(a: array2<int>, rows: nat, cols: nat): (g: seq<seq<int>>)
    requires rows <= a.Length0 && cols <= a.Length1
    reads a
    ensures IsMatrix(g, rows, cols)
  {
    seq(rows, i requires 0 <= i < rows reads a => seq(cols, j requires 0 <= j < cols reads a => a[i, j]))
  }

  /** A buffer that agrees with `g` entry by entry reads back as `g`. */
  lemma GridHolds(a: array2<int>, rows: nat, cols: nat, g: seq<seq<int>>)
    requires rows <= a.Length0 && cols <= a.Length1 && IsMatrix(g, rows, cols)
    requires forall i, j :: 0 <= i < rows && 0 <= j < cols ==> a[i, j] == g[i][j]
    ensures Grid(a, rows, cols) == g
  {
    forall i | 0 <= i < rows
      ensures Grid(a, rows, cols)[i] == g[i]
    {
    }
  }

  /** Every client's allocation and remaining need add up to its maximum
      claim. */
  predicate Balanced(l: Ledger)
  {
    && l.WellFormed()
    && forall i, j :: 0 <= i < l.Clients() && 0 <= j < l.Resources() ==>
         l.allocation[i][j] + l.need[i][j] == l.max[i][j]
  }

  /** The invariants of a committed state: the ledger is balanced and no
      count in it is negative. */
  predicate Consistent(l: Ledger)
  {
    && Balanced(l)
    && NonNegative(l.available)
    && forall i, j :: 0 <= i < l.Clients() && 0 <= j < l.Resources() ==>
         l.allocation[i][j] >= 0 && l.need[i][j] >= 0
  }

  predicate NonNegativeAllocation(l: Ledger)
    requires l.WellFormed()
  {
    forall i :: 0 <= i < l.Clients() ==> NonNegative(l.allocation[i])
  }

  /** The sum of column `j` over the rows below `k` whose index is in `who`. */
  function SumOver(rows: seq<seq<int>>, who: set<nat>, j: nat, k: nat): int
    requires k <= |rows|
    requires forall i :: 0 <= i < k ==> j < |rows[i]|
    decreases k
  {
    if k == 0 then 0
    else SumOver(rows, who, j, k - 1) + (if k - 1 in who then rows[k - 1][j] else 0)
  }

  /** The clients `0 .. n-1`. */
  function Everyone(n: nat): (s: set<nat>)
    ensures forall p: nat :: p in s <==> p < n
  {
    if n == 0 then {} else Everyone(n - 1) + {n - 1}
  }

  /** What is free if the clients in `who` hand back their allocation. */
  function Work(l: Ledger, who: set<nat>): (w: seq<int>)
    requires l.WellFormed()
    ensures |w| == l.Resources()
  {
    seq(l.Resources(), j requires 0 <= j < l.Resources() =>
      l.available[j] + SumOver(l.allocation, who, j, l.Clients()))
  }

  /** The units of each resource in the system, free or held. */
  function Totals(l: Ledger): (t: seq<int>)
    requires l.WellFormed()
    ensures |t| == l.Resources()
  {
    Work(l, Everyone(l.Clients()))
  }

  /** The ledger before any client runs: nothing is allocated and every
      need is the client's maximum claim. */
  function Initial(available: seq<int>, max: seq<seq<int>>): Ledger
  {
    Ledger(available, max, seq(|max|, _ => Zeros(|available|)), max)
  }

  /** The checks `requestResources` makes before it touches the ledger: the
      request stays within the client's need and within what is available. */
  predicate Admissible(l: Ledger, p: nat, req: seq<int>)
    requires l.WellFormed() && p < l.Clients() && |req| == l.Resources()
  {
    forall j :: 0 <= j < l.Resources() ==> req[j] <= l.need[p][j] && req[j] <= l.available[j]
  }

  /** Moves `req` from the pool to client `p` (the tentative grant). */
  function Grant(l: Ledger, p: nat, req: seq<int>): Ledger
    requires l.WellFormed() && p < l.Clients() && |req| == l.Resources()
  {
    Ledger(
      Sub(l.available, req),
      l.max,
      l.allocation[p := Add(l.allocation[p], req)],
      l.need[p := Sub(l.need[p], req)])
  }

  /** Moves `req` from client `p` back to the pool (the rollback). */
  function Undo(l: Ledger, p: nat, req: seq<int>): Ledger
    requires l.WellFormed() && p < l.Clients() && |req| == l.Resources()
  {
    Ledger(
      Add(l.available, req),
      l.max,
      l.allocation[p := Sub(l.allocation[p], req)],
      l.need[p := Add(l.need[p], req)])
  }

  /** Returns all of client `p`'s allocation to the pool and sets its need
      row to `needAfter`. */
  function Release(l: Ledger, p: nat, needAfter: seq<int>): Ledger
    requires l.WellFormed() && p < l.Clients() && |needAfter| == l.Resources()
  {
    Ledger(
      Add(l.available, l.allocation[p]),
      l.max,
      l.allocation[p := Zeros(l.Resources())],
      l.need[p := needAfter])
  }

  // ---------------------------------------------------------------------
  // Column sums

  /** Nobody finished: nothing is added. */
  lemma {:induction false} SumOverNobody(rows: seq<seq<int>>, j: nat, k: nat)
    requires k <= |rows|
    requires forall i :: 0 <= i < k ==> j < |rows[i]|
    ensures SumOver(rows, {}, j, k) == 0
  {
    if k > 0 {
      SumOverNobody(rows, j, k - 1);
    }
  }

  lemma {:induction false} SumOverUpdate(rows: seq<seq<int>>, who: set<nat>, p: nat, row: seq<int>, j: nat, k: nat)
    requires k <= |rows| && p < |rows|
    requires forall i :: 0 <= i < |rows| ==> j < |rows[i]|
    requires j < |row|
    ensures SumOver(rows[p := row], who, j, k)
         == SumOver(rows, who, j, k) + (if p < k && p in who then row[j] - rows[p][j] else 0)
  {
    if k > 0 {
      SumOverUpdate(rows, who, p, row, j, k - 1);
    }
  }

  lemma {:induction false} SumOverInsert(rows: seq<seq<int>>, who: set<nat>, p: nat, j: nat, k: nat)
    requires k <= |rows|
    requires forall i :: 0 <= i < k ==> j < |rows[i]|
    requires p < k && p !in who
    ensures SumOver(rows, who + {p}, j, k) == SumOver(rows, who, j, k) + rows[p][j]
  {
    if p < k - 1 {
      SumOverInsert(rows, who, p, j, k - 1);
    } else {
      SumOverSame(rows, who + {p}, who, j, k - 1);
    }
  }

  /** Two masks that agree below `k` give the same sum. */
  lemma {:induction false} SumOverSame(rows: seq<seq<int>>, a: set<nat>, b: set<nat>, j: nat, k: nat)
    requires k <= |rows|
    requires forall i :: 0 <= i < k ==> j < |rows[i]|
    requires forall i: nat :: i < k ==> (i in a <==> i in b)
    ensures SumOver(rows, a, j, k) == SumOver(rows, b, j, k)
  {
    if k > 0 {
      SumOverSame(rows, a, b, j, k - 1);
    }
  }

  /** A column that is zero in every row sums to zero under any mask. */
  lemma {:induction false} SumOverZeroColumn(rows: seq<seq<int>>, who: set<nat>, j: nat, k: nat)
    requires k <= |rows|
    requires forall i :: 0 <= i < k ==> j < |rows[i]| && rows[i][j] == 0
    ensures SumOver(rows, who, j, k) == 0
  {
    if k > 0 {
      SumOverZeroColumn(rows, who, j, k - 1);
    }
  }

  /** With non-negative entries, a larger mask gives a larger sum. */
  lemma {:induction false} SumOverMonotone(rows: seq<seq<int>>, a: set<nat>, b: set<nat>, j: nat, k: nat)
    requires k <= |rows|
    requires forall i :: 0 <= i < k ==> j < |rows[i]| && rows[i][j] >= 0
    requires forall i: nat :: i < k && i in a ==> i in b
    ensures SumOver(rows, a, j, k) <= SumOver(rows, b, j, k)
  {
    if k > 0 {
      SumOverMonotone(rows, a, b, j, k - 1);
    }
  }

  /** While nothing is allocated, finishing clients frees nothing. */
  lemma WorkIdle(l: Ledger, who: set<nat>)
    requires l.WellFormed()
    requires forall i :: 0 <= i < l.Clients() ==> l.allocation[i] == Zeros(l.Resources())
    ensures Work(l, who) == l.available
  {
    forall k | 0 <= k < l.Resources()
      ensures Work(l, who)[k] == l.available[k]
    {
      forall i | 0 <= i < l.Clients()
        ensures l.allocation[i][k] == 0
      {
        assert l.allocation[i] == Zeros(l.Resources());
      }
      SumOverZeroColumn(l.allocation, who, k, l.Clients());
    }
  }

  /** Before anybody finishes, the work vector is the available vector. */
  lemma WorkNobody(l: Ledger)
    requires l.WellFormed()
    ensures Work(l, {}) == l.available
  {
    forall k | 0 <= k < l.Resources()
      ensures Work(l, {})[k] == l.available[k]
    {
      SumOverNobody(l.allocation, k, l.Clients());
    }
  }

  /** When client `p` finishes, its allocation is added to the work vector. */
  lemma WorkFinish(l: Ledger, done: set<nat>, p: nat)
    requires l.WellFormed() && p < l.Clients() && p !in done
    ensures Work(l, done + {p}) == Add(Work(l, done), l.allocation[p])
  {
    forall k | 0 <= k < l.Resources()
      ensures Work(l, done + {p})[k] == Add(Work(l, done), l.allocation[p])[k]
    {
      SumOverInsert(l.allocation, done, p, k, l.Clients());
    }
  }

  // ---------------------------------------------------------------------
  // Properties of the operations

  /** The rollback restores the ledger exactly. */
  lemma GrantThenUndo(l: Ledger, p: nat, req: seq<int>)
    requires l.WellFormed() && p < l.Clients() && |req| == l.Resources()
    ensures Grant(l, p, req).WellFormed()
    ensures Undo(Grant(l, p, req), p, req) == l
  {
    var u := Undo(Grant(l, p, req), p, req);
    assert u.available == l.available;
    assert u.allocation[p] == l.allocation[p];
    assert u.need[p] == l.need[p];
    assert u.allocation == l.allocation;
    assert u.need == l.need;
  }

  /** Any grant keeps a balanced ledger balanced: what the client's
      allocation gains, its need loses. */
  lemma GrantBalanced(l: Ledger, p: nat, req: seq<int>)
    requires Balanced(l) && p < l.Clients() && |req| == l.Resources()
    ensures Balanced(Grant(l, p, req))
  {
  }

  /** Releasing right after a grant hands the granted units back too: the
      net effect is that of the release alone. */
  lemma GrantThenRelease(l: Ledger, p: nat, req: seq<int>)
    requires l.WellFormed() && p < l.Clients() && |req| == l.Resources()
    ensures Release(Grant(l, p, req), p, l.max[p]) == Release(l, p, l.max[p])
  {
    var a := Release(Grant(l, p, req), p, l.max[p]);
    var b := Release(l, p, l.max[p]);
    assert a.available == b.available;
  }

  /** An admissible, non-negative request keeps a consistent ledger consistent. */
  lemma GrantConsistent(l: Ledger, p: nat, req: seq<int>)
    requires Consistent(l) && p < l.Clients() && |req| == l.Resources()
    requires Admissible(l, p, req) && NonNegative(req)
    ensures Consistent(Grant(l, p, req))
  {
  }

  /** Granting moves units between the pool and a client: the totals stay. */
  lemma GrantConservesTotals(l: Ledger, p: nat, req: seq<int>)
    requires l.WellFormed() && p < l.Clients() && |req| == l.Resources()
    ensures Grant(l, p, req).WellFormed()
    ensures Totals(Grant(l, p, req)) == Totals(l)
  {
    var g := Grant(l, p, req);
    forall j | 0 <= j < l.Resources()
      ensures Totals(g)[j] == Totals(l)[j]
    {
      SumOverUpdate(l.allocation, Everyone(l.Clients()), p, Add(l.allocation[p], req), j, l.Clients());
    }
  }

  /** Releasing moves a client's allocation back to the pool: the totals stay. */
  lemma ReleaseConservesTotals(l: Ledger, p: nat, needAfter: seq<int>)
    requires l.WellFormed() && p < l.Clients() && |needAfter| == l.Resources()
    ensures Release(l, p, needAfter).WellFormed()
    ensures Totals(Release(l, p, needAfter)) == Totals(l)
  {
    var r := Release(l, p, needAfter);
    forall j | 0 <= j < l.Resources()
      ensures Totals(r)[j] == Totals(l)[j]
    {
      SumOverUpdate(l.allocation, Everyone(l.Clients()), p, Zeros(l.Resources()), j, l.Clients());
    }
  }

  /** The initial ledger is consistent when no count in it is negative. */
  lemma InitialConsistent(available: seq<int>, max: seq<seq<int>>)
    requires IsMatrix(max, |max|, |available|)
    requires NonNegative(available) && forall i :: 0 <= i < |max| ==> NonNegative(max[i])
    ensures Consistent(Initial(available, max))
  {
  }
}
