# Banker's algorithm resource ledger

This project models the resource arbiter of two small C programs, `bankers_algorithm.c` and `banqueiro.c`. The arbiter uses the Banker's algorithm to avoid deadlock. The ledger it keeps has four parts:

- the vector of available units of each resource type;
- each client's maximum claim;
- what each client currently holds (its allocation);
- what each client still needs.

In `bankers_algorithm.c` the arbiter does three things:

- It checks whether a state is safe (`isSafe`).
- It grants a request only if the resulting state is safe (`requestResources`). Otherwise it rolls the request back exactly.
- It takes back everything a process holds and resets that process's need to its maximum claim (`releaseResources`).

In `banqueiro.c` the bank draws its supply and the clients' claims at random. A client whose need has dropped to zero is finished: the bank takes back what it holds (`finaliza_cliente`). In that program the request and safety routines are placeholders that return fixed answers.

The project has four modules:

- `ResourceLedger` (`ledger.dfy`) holds the ledger as a value: the datatype `Ledger`, its invariants, and the operations as pure functions (`Grant`, `Undo`, `Release`, `Initial`). It also defines `Totals`, the per-resource total of free plus held units, and proves how each operation affects the invariants and the totals.
- `Safety` (`safety.dfy`) defines when a ledger is safe: there is an order in which every client can finish, each one taking its whole remaining need from what is free once the clients before it have handed back their allocation. It proves that the greedy sweep of `isSafe` is complete, that a grant never makes an unsafe state safe, and that a release never makes a safe state unsafe.
- `BankersAlgorithm` (`bankers_algorithm.dfy`) has the class `Bank`. Its fields are the fixed-size global buffers of `bankers_algorithm.c`, of which only the first `P` rows and `R` columns are in use. Each operation is an imperative method, proved against the ledger functions through the ghost view `Snapshot()`.
- `Banqueiro` (`banqueiro.dfy`) has the class `Banco`, with the buffers of `banqueiro.c` sized `n` by `m`. It models the initialisation, the release of a finished client, and the two placeholder routines.

Values returned by `rand()` appear as parameters named `r` or `draws`. `rand()` never returns a negative value, and for a non-negative dividend C's `%` and Dafny's `%` agree, so the range arithmetic is written with `%` directly.

Points where the code departs from the textbook Banker's algorithm, and how the model treats each:

- **How the safety check continues after a process finishes.** The textbook safety check restarts its scan from the first process each time one finishes. The code instead continues the current pass with the enlarged `work` vector. The model follows the code. When no allocation is negative, `Safety.StuckImpliesUnsafe` shows that the answer is the same either way: a pass that finishes nobody proves that no safe order exists.
- **What a finished client's row looks like in `banqueiro.c`.** The textbook keeps allocation plus need equal to the maximum claim for every client at all times. `finaliza_cliente` instead leaves the finished client's need row at zero and empties its allocation, while the claim row is kept. For that row the equation no longer holds. `Banco.FinalizaCliente` therefore promises that totals and safety are kept, but not that the ledger stays `Balanced`.
- **Whether the first ledger is safe.** The textbook assumes that the arbiter starts from a safe state and only ever commits safe states.
  - In `banqueiro.c` each claim is drawn between 1 and the supply of its resource. `Banqueiro.InitialBankSafe` proves that the first ledger is then always safe: nothing is allocated yet, and no claim exceeds the supply, so the clients can finish one at a time in any order.
  - In `bankers_algorithm.c` (lines 191 and 199) the supply and each claim are drawn from 1 to 10 independently. `BankersAlgorithm.BootstrapMayBeUnsafe` exhibits a first ledger that is consistent but unsafe: a supply of 1 and a claim of 2, which are the draws 0 and 1 (`BankersAlgorithm.BootstrapDraws`). From such a state no non-negative request is ever granted (`Safety.GrantKeepsUnsafe`).

## Model

| member | source | states |
|---|---|---|
| BankersAlgorithm.GeraRand | bankers_algorithm.c:22-24 | for a non-negative draw and `min <= max`, the value lies between `min` and `max` |
| BankersAlgorithm.GeraRandOnto | bankers_algorithm.c:22-24 | every value between `min` and `max` is produced by some draw |
| BankersAlgorithm.Bank.constructor | bankers_algorithm.c:188-204 | the buffers hold the initial ledger: `available` and `max` as given, no allocation, and need equal to the claims |
| BankersAlgorithm.Bank.IsSafe | bankers_algorithm.c:41-73 | `true` only for a state that has a safe order. `false` only for a state that has none, whenever no allocation is negative. Nothing of the bank changes |
| BankersAlgorithm.Bank.Sweep | bankers_algorithm.c:50-67 | one pass keeps the finished processes in a safe order, with `finish` flagging exactly them and `work` equal to `available` plus their allocations. If nobody finished, no unfinished process fits in `work` |
| BankersAlgorithm.Bank.NeedFits | bankers_algorithm.c:53-58 | the answer is `true` exactly when every entry of the process's need row is at most the matching entry of `work` |
| BankersAlgorithm.Bank.AddAllocation | bankers_algorithm.c:59-60 | `work` becomes its old value plus the process's allocation row |
| BankersAlgorithm.Bank.ApplyRequest | bankers_algorithm.c:91-95 | the request leaves `available` and moves from the process's need to its allocation. All other rows are unchanged |
| BankersAlgorithm.Bank.UndoRequest | bankers_algorithm.c:102-106 | the exact inverse of the tentative grant |
| BankersAlgorithm.Bank.RequestResources | bankers_algorithm.c:75-111 | a request that exceeds the need or what is available is refused and the ledger is unchanged. A grant leaves the granted state, which is safe. A refusal after the safety check restores the old ledger exactly. The totals are kept in every case, and so are balance and, for non-negative requests, consistency. For a non-negative request and allocation, the request is granted exactly when it is admissible and the resulting state is safe |
| BankersAlgorithm.Bank.ReleaseResources | bankers_algorithm.c:113-122 | `available` gains the process's allocation, the allocation row becomes zero and the need row becomes the claim row. The totals are kept. Balance, consistency and safety are preserved |
| BankersAlgorithm.Bank.ProcessCode | bankers_algorithm.c:124-138 | a refused request leaves the ledger unchanged. A granted one is followed by the release, and the round's net effect equals the release alone. The totals and balance are kept, and for non-negative requests and allocations the request is granted exactly when it is admissible and leaves a safe state |
| BankersAlgorithm.TwoProcesses | bankers_algorithm.c:128-134 | with a supply of 5 and claims of 3 and 4, process 0's request for 3 is granted and used, process 1's request for 5 (above its claim) is refused, and all 5 units end up free |
| BankersAlgorithm.TwoProcessesGrantSafe | bankers_algorithm.c:41-73 | the state after granting 3 units to process 0 is safe, in the order 0 then 1 |
| BankersAlgorithm.BootstrapDraws | bankers_algorithm.c:190-203 | the draws 0 and 1 give a supply of 1 and a claim of 2 |
| BankersAlgorithm.ShortSupplyUnsafe | bankers_algorithm.c:41-73 | one unit of supply against a claim of two is a consistent ledger that has no safe order |
| BankersAlgorithm.BootstrapMayBeUnsafe | bankers_algorithm.c:190-203 | the bootstrap with draws 0 and 1 yields a supply of 1 and a claim of 2, a first ledger that is consistent but unsafe |
| ResourceLedger.WorkNobody | bankers_algorithm.c:45-46 | before any process finishes, `work` is `available` |
| ResourceLedger.WorkFinish | bankers_algorithm.c:59-62 | finishing one more process adds exactly its allocation row to `work` |
| ResourceLedger.WorkIdle | banqueiro.c:135-140 | while nothing is allocated, finishing clients frees nothing |
| ResourceLedger.GrantThenUndo | bankers_algorithm.c:91-106 | undoing a grant gives back the ledger before the grant |
| ResourceLedger.GrantThenRelease | bankers_algorithm.c:91-119 | a release right after a grant has the same result as the release alone |
| ResourceLedger.GrantBalanced | bankers_algorithm.c:91-95 | any grant keeps allocation plus need equal to the claim |
| ResourceLedger.GrantConsistent | bankers_algorithm.c:78-95 | an admissible non-negative grant keeps every count non-negative and the ledger balanced |
| ResourceLedger.GrantConservesTotals | bankers_algorithm.c:91-95 | a grant keeps `available[j]` plus the sum of column `j` of the allocation |
| ResourceLedger.ReleaseConservesTotals | bankers_algorithm.c:115-119 | a release keeps `available[j]` plus the sum of column `j` of the allocation |
| ResourceLedger.InitialConsistent | bankers_algorithm.c:197-203 | the initial ledger, with no allocation and need equal to the claims, is consistent when no drawn value is negative |
| Safety.PrefixSafeExtend | bankers_algorithm.c:58-65 | appending a process whose need fits in `work` keeps the order of finished processes safe |
| Safety.SweepStep | bankers_algorithm.c:58-65 | finishing a fitting process keeps the invariant of the sweep: a safe order, exact `finish` flags, and `work` matching the finished set |
| Safety.DistinctBelow | bankers_algorithm.c:49-72 | at most `P` processes can be finished, so the outer loop ends after at most `P` passes |
| Safety.SafeOrderExtends | bankers_algorithm.c:68-70 | against any safe order, a partial set of finished processes can always be extended by one that fits |
| Safety.StuckImpliesUnsafe | bankers_algorithm.c:68-70 | a pass that finishes nobody while some process is unfinished proves that no safe order exists |
| Safety.GrantKeepsUnsafe | bankers_algorithm.c:97-110 | a non-negative grant never turns an unsafe state into a safe one |
| Safety.ReleaseKeepsSafe | bankers_algorithm.c:113-122 | handing back a non-negative allocation keeps a safe state safe when the new need does not exceed old need plus old allocation |
| Safety.ReleaseResetFacts | bankers_algorithm.c:115-119 | resetting a process's need to its claim keeps the totals, balance and consistency, and keeps a balanced, safe state with no negative allocation safe |
| Safety.IdleSafe | banqueiro.c:129-140 | a ledger with nothing allocated and every need within the supply is safe |
| Safety.ReleaseFinishedFacts | banqueiro.c:238-245 | releasing a client and keeping its need row keeps the totals and the non-negativity of the allocation, and keeps a safe state safe |
| Banqueiro.GeraRand | banqueiro.c:298-309 | with `zero == 1` and `limit >= 1` the value lies in 1..`limit`. Otherwise, with `limit >= 0`, it lies in 0..`limit` |
| Banqueiro.GeraRandOnto | banqueiro.c:298-309 | every value of the promised range is produced by some draw |
| Banqueiro.Recursos | banqueiro.c:103-114 | the drawn supply of each resource lies in 1..MAXLIMIT |
| Banqueiro.Claims | banqueiro.c:135-140 | each drawn claim lies between 1 and the supply of its resource |
| Banqueiro.InitialBankSafe | banqueiro.c:129-140 | the initialised bank is consistent and safe |
| Banqueiro.Banco.constructor | banqueiro.c:103-114 | `disp` holds the drawn supply |
| Banqueiro.Banco.IniciaClientes | banqueiro.c:129-140 | `max` holds the drawn claims, `aloc` is all zero, and `ne` equals `max` |
| Banqueiro.Banco.Requisicao | banqueiro.c:168-185 | always answers 0 (deny) and changes nothing |
| Banqueiro.Banco.Seguranca | banqueiro.c:187-219 | always answers 1 (safe) and changes nothing |
| Banqueiro.Banco.FinalizaCliente | banqueiro.c:221-246 | answers 1 exactly when the client's need row is all zero. In that case `disp` gains the client's allocation and that allocation becomes zero; need, claims and the other rows are unchanged. Otherwise it answers 0 and nothing changes. The totals are kept in both cases, and a safe state with no negative allocation stays safe |
| Banqueiro.Inicia | banqueiro.c:86-90 | the setup of `main` builds a fresh bank holding the drawn initial ledger, which is consistent and safe |

## Left out

- Threads and semaphores. In `bankers_algorithm.c` each call made under the `mutex` semaphore (`sem_wait`/`sem_post`) is modelled as one atomic method. The threads themselves are left out: the `pthread_create`/`pthread_join` that run `processCode` (whose body is `Bank.ProcessCode`) once per process, and interleavings between those threads.
- Concurrency in `banqueiro.c`. That program uses no semaphore at all, so the `cliente` threads would call `finaliza_cliente` unsynchronised, and its `disp[j] += aloc[i][j]` could race with another client's. `Banco.FinalizaCliente` treats the call as atomic. In the source that call is unreachable while `requisicao` is the placeholder that denies every request. For the same reason the `cliente` retry loop never ends, and it is not modelled.
- `rand()` and `srand()`. Each draw is a parameter.
- `gera_requisicao` in both programs is not part of this model. It only draws random request vectors.
- The bootstrap loops in `main` of `bankers_algorithm.c`. `Bank`'s constructor takes the drawn supply and claims as parameters.
- All printing (`printf`, `imprime_matriz`, `print_banco`), the `sleep` in `processCode` and its `free` of the request.
- Parsing of `argv` with `atoi`. The bound check of `main` becomes the constructor's precondition `P <= 100 && R <= 100`.
- `malloc` and `free`, a failing allocation, and the leaked buffers in `banqueiro.c` (`gera_requisicao` and the unused `trab`/`fim` of `seguranca`).
- The row-pointer layout of `banqueiro.c` (`int **`). It is modelled as one two-dimensional array per matrix, so rows cannot alias.
- 32-bit `int` overflow. All arithmetic is unbounded; with the drawn bounds of both programs no sum comes near the limit.
- BankersAlgorithm.Bank.IsSafe: a `false` answer is proved to mean "unsafe" only when no allocation is negative. With a negative allocation the greedy sweep can miss an order in which a client frees a negative amount.
- BankersAlgorithm.Bank.RequestResources: consistency and the exact grant condition are stated for non-negative requests only. The function does not check the sign of a request, and its only caller draws requests between 0 and the need.
- Banqueiro.Banco.FinalizaCliente: does not promise that the ledger stays balanced. The finished row keeps its claim while its need and allocation are both zero.
