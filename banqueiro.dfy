/** The bank of banqueiro.c. Its ledger lives in heap buffers sized by the
    number of clients `n` and of resource types `m`: the vector `disp`
    (available) and the matrices `max`, `aloc` (allocation) and `ne`
    (need). Of the arbiter, only the release of a finished client is
    written out; the request and safety routines are placeholders that
    return fixed answers, and are modelled as such. */
module Banqueiro {
  import opened ResourceLedger
  import opened Safety

  /** Upper bound on the units of one resource type (MAXLIMIT). */
  const MaxLimit: int := 15

  /** `gera_rand(limit, zero)` with the value of `rand()` given as `r`: a
      value from 1 to `limit` when `zero` is 1, from 0 to `limit` otherwise.
      Since `rand()` is never negative, C's truncating `%` agrees with
      Dafny's `%` here. */
  function GeraRand(limit: int, zero: int, r: nat): (v: int)
    requires if zero == 1 then limit != 0 else limit + 1 != 0
    ensures zero == 1 && limit >= 1 ==> 1 <= v <= limit
    ensures zero != 1 && limit >= 0 ==> 0 <= v <= limit
  {
    if zero == 1 then r % limit + 1 else r % (limit + 1)
  }

  /** Every value of the promised range is drawn for some value of `rand()`. */
  lemma GeraRandOnto(limit: int, zero: int, v: int) returns (r: nat)
    requires if zero == 1 then 1 <= v <= limit else 0 <= v <= limit
    ensures GeraRand(limit, zero, r) == v
  {
    if zero == 1 {
      r := v - 1;
    } else {
      r := v;
    }
  }

  /** The supply drawn by `inicia_recursos`: each resource type gets from
      1 to MaxLimit units. */
  function Recursos(draws: seq<nat>): (disp: seq<int>)
    ensures |disp| == |draws|
    ensures forall j :: 0 <= j < |disp| ==> 1 <= disp[j] <= MaxLimit
  {
    seq(|draws|, j requires 0 <= j < |draws| => GeraRand(MaxLimit, 1, draws[j]))
  }

  /** The maximum claims drawn by `inicia_clientes`: client `i` claims
      from 1 to `disp[j]` units of resource `j`. */
  function Claims(disp: seq<int>, draws: seq<seq<nat>>): (c: seq<seq<int>>)
    requires IsMatrix(draws, |draws|, |disp|)
    requires forall j :: 0 <= j < |disp| ==> disp[j] != 0
    ensures IsMatrix(c, |draws|, |disp|)
    ensures forall i, j :: 0 <= i < |c| && 0 <= j < |disp| && disp[j] >= 1 ==> 1 <= c[i][j] <= disp[j]
  {
    seq(|draws|, i requires 0 <= i < |draws| =>
      seq(|disp|, j requires 0 <= j < |disp| => GeraRand(disp[j], 1, draws[i][j])))
  }

  /** The bank starts out safe: nothing is allocated yet and no client
      claims more of a resource than the whole supply, so the clients can
      finish one at a time in any order. */
  lemma InitialBankSafe(disp: seq<int>, draws: seq<seq<nat>>)
    requires IsMatrix(draws, |draws|, |disp|)
    requires forall j :: 0 <= j < |disp| ==> disp[j] >= 1
    ensures Consistent(Initial(disp, Claims(disp, draws)))
    ensures Safe(Initial(disp, Claims(disp, draws)))
  {
    var c := Claims(disp, draws);
    var l := Initial(disp, c);
    forall i | 0 <= i < |c|
      ensures NonNegative(c[i]) && Fits(c[i], disp)
    {
    }
    InitialConsistent(disp, c);
    IdleSafe(l);
  }

  class Banco {
    /** Number of clients and of resource types. */
    const n: nat
    const m: nat

    const disp: array<int>
    const max: array2<int>
    const aloc: array2<int>
    const ne: array2<int>

    ghost predicate Valid()
    {
      && disp.Length == m
      && max.Length0 == n && max.Length1 == m
      && aloc.Length0 == n && aloc.Length1 == m
      && ne.Length0 == n && ne.Length1 == m
      && max != aloc && max != ne && aloc != ne
    }

    /** The ledger the buffers currently hold. */
    ghost function Snapshot(): (l: Ledger)
      requires Valid()
      reads disp, max, aloc, ne
      ensures l.WellFormed() && l.Clients() == n && l.Resources() == m
    {
      Ledger(disp[..], Grid(max, n, m), Grid(aloc, n, m), Grid(ne, n, m))
    }

    /** `inicia_recursos`, together with the allocation of the client
        matrices in `inicia_clientes`: `disp` receives the drawn supply;
        the matrices are not filled in yet. */
    constructor (clients: nat, resources: nat, draws: seq<nat>)
      requires |draws| == resources
      ensures Valid() && n == clients && m == resources
      ensures fresh(disp) && fresh(max) && fresh(aloc) && fresh(ne)
      ensures disp[..] == Recursos(draws)
    {
      n, m := clients, resources;
      var supply := Recursos(draws);
      disp := new int[resources](j => if 0 <= j < |supply| then supply[j] else 0);
      max := new int[clients, resources];
      aloc := new int[clients, resources];
      ne := new int[clients, resources];
    }

    /** The loop of `inicia_clientes` that fills the ledger: each claim is
        drawn between 1 and the supply of its resource, nothing is
        allocated, and each need equals its claim. */
    method IniciaClientes(draws: seq<seq<nat>>)
      requires Valid() && IsMatrix(draws, n, m)
      requires forall j :: 0 <= j < m ==> disp[j] != 0
      modifies max, aloc, ne
      ensures Snapshot() == Initial(disp[..], Claims(disp[..], draws))
    {
      ghost var c := Claims(disp[..], draws);
      for i := 0 to n
        invariant forall ii, j :: 0 <= ii < i && 0 <= j < m ==>
                    max[ii, j] == c[ii][j] && aloc[ii, j] == 0 && ne[ii, j] == c[ii][j]
      {
        for j := 0 to m
          invariant forall ii, jj :: 0 <= ii < i && 0 <= jj < m ==>
                      max[ii, jj] == c[ii][jj] && aloc[ii, jj] == 0 && ne[ii, jj] == c[ii][jj]
          invariant forall jj :: 0 <= jj < j ==>
                      max[i, jj] == c[i][jj] && aloc[i, jj] == 0 && ne[i, jj] == c[i][jj]
        {
          max[i, j] := GeraRand(disp[j], 1, draws[i][j]);
          aloc[i, j] := 0;
          ne[i, j] := max[i, j];
        }
      }
      GridHolds(max, n, m, c);
      GridHolds(aloc, n, m, seq(n, _ => Zeros(m)));
      GridHolds(ne, n, m, c);
    }

    /** `requisicao` is a placeholder: it denies every request and leaves
        the ledger alone. */
    method Requisicao(i: int, req: seq<int>) returns (r: int)
      ensures r == 0
    {
      return 0;
    }

    /** `seguranca` is a placeholder: it reports every state as safe and
        leaves the ledger alone. */
    method Seguranca() returns (r: int)
      ensures r == 1
    {
      return 1;
    }

    /** `finaliza_cliente`: a client whose need row is all zero is
        finished; its whole allocation goes back to `disp` and 1 is
        returned. Any other client is left alone and 0 is returned. The
        need row and the claims are not touched. */
    method FinalizaCliente(i: nat) returns (r: int)
      requires Valid() && i < n
      modifies disp, aloc
      ensures r == 1 <==> old(Snapshot()).need[i] == Zeros(m)
      ensures r != 1 ==> r == 0 && Snapshot() == old(Snapshot())
      ensures r == 1 ==> Snapshot() == Release(old(Snapshot()), i, old(Snapshot()).need[i])
      ensures Totals(Snapshot()) == Totals(old(Snapshot()))
      ensures NonNegativeAllocation(old(Snapshot())) ==> NonNegativeAllocation(Snapshot())
      ensures NonNegativeAllocation(old(Snapshot())) && Safe(old(Snapshot())) ==> Safe(Snapshot())
    {
      ghost var s := Snapshot();
      for j := 0 to m
        invariant forall k :: 0 <= k < j ==> ne[i, k] == 0
      {
        if ne[i, j] != 0 {
          assert s.need[i][j] != Zeros(m)[j];
          return 0;
        }
      }
      assert s.need[i] == Zeros(m);

      ghost var t := Release(s, i, s.need[i]);
      ReleaseFinishedFacts(s, i);
      for j := 0 to m
        invariant forall k :: 0 <= k < m ==>
                    && disp[k] == old(disp[k]) + (if k < j then old(aloc[i, k]) else 0)
                    && aloc[i, k] == (if k < j then 0 else old(aloc[i, k]))
        invariant forall q, k :: 0 <= q < n && 0 <= k < m && q != i ==> aloc[q, k] == old(aloc[q, k])
      {
        disp[j] := disp[j] + aloc[i, j];
        aloc[i, j] := 0;
      }
      assert disp[..] == t.available;
      GridHolds(aloc, n, m, t.allocation);
      return 1;
    }
  }

  /** The setup of `main`: `inicia_recursos` and then the filling loop of
      `inicia_clientes`. The bank it builds is consistent and safe. */
  method Inicia(clients: nat, resources: nat, supplyDraws: seq<nat>, claimDraws: seq<seq<nat>>)
    returns (bank: Banco)
    requires |supplyDraws| == resources && IsMatrix(claimDraws, clients, resources)
    ensures fresh(bank) && fresh(bank.disp) && fresh(bank.max) && fresh(bank.aloc) && fresh(bank.ne)
    ensures bank.Valid() && bank.n == clients && bank.m == resources
    ensures bank.Snapshot() == Initial(Recursos(supplyDraws), Claims(Recursos(supplyDraws), claimDraws))
    ensures Consistent(bank.Snapshot()) && Safe(bank.Snapshot())
  {
    bank := new Banco(clients, resources, supplyDraws);
    bank.IniciaClientes(claimDraws);
    InitialBankSafe(Recursos(supplyDraws), claimDraws);
  }
}
