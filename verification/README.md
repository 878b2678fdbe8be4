# Verified models of mistral.rs protocols and algorithms

This project models the parts of mistral.rs whose correctness depends on more than one
function at a time, and proves what they promise for every input, every run and every
interleaving. `dafny verify dfyconfig.toml` checks all of it.

| files | part of mistral.rs |
|---|---|
| `Runs` | runs of a transition system, shared by the next three rows |
| `SessionProtocol`, `SessionLiveness`, `PythonSession` | the request/reply protocol between the code-execution host and its Python child, with timeouts, SIGINT, kill and respawn |
| `SessionTable`, `ReaperPasses` | the table of sessions shared by concurrent callers and the idle reaper |
| `TensorParallel`, `ReadyRounds` | the handshake of a tensor-parallel leader and its workers over a list of communicator ids |
| `Bits`, `Marlin`, `MarlinMatrix` | repacking AWQ zero-points for Marlin kernels |
| `Text`, `Decimal`, `Paths`, `FileNames`, `Sorting`, `Trees`, `TreeOrder` | strings, paths, directory trees and sorting, shared by the next three rows |
| `Fnv`, `Headers` | the FNV-1a header hash of two build scripts |
| `OutputNames`, `OutputFiles` | discovery of files that executed code has produced |
| `Mount`, `InputMounts` | names and writes of input files, and the cache that skips mounting |
| `Masks` | attention masks |
| `RowMajor`, `Gemm`, `RepeatKv` | row-major kernels and the repetition of key/value heads |
| `Alibi` | the two branches of the linear attention bias |
| `ResourcePlan` | fair splitting of a key/value budget |
| `DeviceSpec`, `DeviceResolve` | device strings, and probe-gated device construction |

Protocols are transition systems: a state, a set of actions, `Next` for one step and `After`
for a run of them. Nondeterminism (a child that dies, a timeout, a stray connection, the order of
threads) is the choice of the action. Code that updates things in place is a class or a method
with loops, proved against a function of its inputs.

## What turned out not to hold

- "No session whose lock is held is removed" is false of the reaper
  (`mistralrs-code-exec/src/lib.rs:279-305`). It probes a session with `try_lock`, lets the lock
  go and removes the entry later in the same pass; a caller that already had a handle can lock
  the session in between. `SessionTable.LockedSessionCanBeReaped` gives the run, and
  `SessionTable.ReapIsSafeIffUnshared` the exact condition: the removal is safe in every
  continuation if and only if the table holds the only handle at the probe. The child is still
  never dropped under a caller (`SessionTable.DroppedIffUnreferenced`).
- The tensor-parallel handshake can be blocked for ever by an outsider. The leader reads one line
  from each connection without a time limit (`mistralrs-core/src/distributed.rs:652-656`), so a
  process that connects to the fixed socket name and stays silent holds it.
  `TensorParallel.SilentConnectionBlocks` gives the run, for any ids and any number of workers.
- The leader counts anonymous lines (`mistralrs-core/src/distributed.rs:657-659`), so a "ready" line
  of an outsider is counted too. `TensorParallel.ImpostorIsCounted` gives a run in which the leader
  goes ahead while its worker has written nothing. `TensorParallel.LeaderWaitsForAllIff` gives the
  exact condition under which everyone has written; without outsiders it always holds
  (`TensorParallel.LeaderWaitsForAll`). `ReadyRounds.RoundIsSafeIff` looks ahead from inside a ready
  loop: every continuation without further outsiders is safe if and only if everyone has written
  already, or no outsider's line is counted or queued where it will be.
- `TensorParallel.HandshakeCompletesIff` puts the two together: after a failure-free run the
  handshake can be completed if and only if the leader can complete its count without reading from
  a silent connection, and has not gone into an init for which some worker has not announced itself.
  A silent connection queued behind the last line still needed does no harm.
- The shares of a budget need not add up to the budget when `value * weight` saturates
  (`mistralrs-core/src/resource_plan.rs:70-75`). `ResourcePlan.SaturationLosesBudget` gives a
  case that loses a third. `ResourcePlan.PlanCoversBudget` gives the exact condition: the whole
  budget is handed out if and only if what saturation takes is no more than what rounding up adds,
  both computed from the budget and the weights. `ResourcePlan.ShareIsFairIff` says exactly when a
  single share is unaffected.
- Splitting a paged configuration does not carry over `fit_ctx`
  (`mistralrs-core/src/resource_plan.rs:99-113`), although every other setting is copied: it is
  off after every split, so it is preserved if and only if it was off. `ResourcePlan.PlanEntry`
  states this together with what is kept.
- The single-token shortcut of the mask builder is not the sliding mask it replaces once the
  past reaches the window (`mistralrs-core/src/layers_masker.rs:203-205`);
  `Masks.SingleTokenShortcut` states both directions.
- Splitting a prompt changes its chunked mask (`mistralrs-core/src/layers_masker.rs:88-122`),
  because such a mask shows the whole past. `Masks.ChunkedChunksStackIff` states when it does not.
- A session that has mounted files may report success for files that it has not mounted
  (`mistralrs-code-exec/src/session.rs:200-215`): its cache key has ids, names and sizes but no
  contents, and a mount that fails part-way leaves the key as it was. The contract of
  `InputMounts.MountCache.MountInputFiles` gives the exact condition over the whole history of
  mounts, failed ones included: after a cache hit the files are intact if and only if the latest
  writes to their paths wrote the same contents. `InputMounts.SameLabelsAreStale`,
  `InputMounts.FailedMountMakesHitStale` and `InputMounts.ColonsCollide` give the cases.

## Model

| member | source | states |
|---|---|---|
| SessionProtocol.NextKeepsInv | mistralrs-code-exec/src/session.rs:217-355 | every single step of host or child, whatever it is, keeps the invariant that ties pipes, namespace, `alive` and the outcomes so far together |
| SessionProtocol.StepsKeepInv | mistralrs-code-exec/src/session.rs:174-355 | so, by `Runs.RunKeeps`, does every run |
| SessionProtocol.NoStaleReply | mistralrs-code-exec/src/session.rs:240-288 | in every interleaving of timeouts, interrupts, kills, deaths, respawns and resets, a reply turned into a result answers that same call, computed in the namespace left by exactly those calls since the last fresh start that were answered or interrupted |
| SessionProtocol.QuietBetweenCalls | mistralrs-code-exec/src/session.rs:217-304 | between calls with `alive` set, the child is gone or both pipes are empty |
| SessionProtocol.ResetIsFresh | mistralrs-code-exec/src/session.rs:294-304 | a successful reset leaves an empty namespace, by clear as well as by respawn |
| SessionProtocol.CallResult | mistralrs-code-exec/src/session.rs:217-304 | what holds of pipes, namespace and result when a call returns, after any run |
| SessionProtocol.ChildKeepsInv | mistralrs-code-exec/python/executor.py:438-506 | every step of the executor loop (pick up, run, SIGINT, collect, reply piecewise, die) keeps the invariant |
| SessionProtocol.ResetCanReturn | mistralrs-code-exec/python/executor.py:494-500 | a reset, which has no timeout, can return from every reachable state, and succeeds if the child runs |
| SessionLiveness.LineIsUsed | mistralrs-code-exec/src/session.rs:253-279 | in every reachable state: a line that parses is the answer of an execute, saves the session in the grace period or completes a reset, and leaves the session alive; one that does not parse fails the execute and gives the session up, or ends the grace period |
| SessionLiveness.ExecuteCanReturn | mistralrs-code-exec/src/session.rs:240-262 | from every reachable state in which an execute waits and the child runs, some run without death, kill, timeout or interrupt ends in the answer to that very call, in the promised namespace, with the session alive |
| SessionLiveness.InterruptCanPreserve | mistralrs-code-exec/src/session.rs:307-328 | on Unix, from every reachable state at a timeout with a running child, some run without death or kill ends in a timeout that keeps the session alive |
| SessionLiveness.NoInterruptElsewhere | mistralrs-code-exec/src/session.rs:307-328 | elsewhere a timeout goes straight to the kill |
| SessionLiveness.SigintIsSurvivedIff | mistralrs-code-exec/python/executor.py:380-506 | the executor survives SIGINT exactly inside user code and while it replies to an execute |
| SessionLiveness.CallCanReturn | mistralrs-code-exec/src/session.rs:217-304 | from every reachable state inside a call that call can return, whatever has happened to the child |
| SessionLiveness.SessionCanAnswer | mistralrs-code-exec/src/session.rs:217-262 | from every reachable state between calls an answer is at most two executes away: the first fails only if the child has died unnoticed |
| SessionLiveness.DeadSessionIsReset | mistralrs-code-exec/src/session.rs:294-297 | a session that is not alive is reset by a respawn, to a fresh child |
| SessionLiveness.KilledStaysDead | mistralrs-code-exec/src/session.rs:273-279 | a kill that succeeds ends the call as timed out and not preserved, and until a respawn the child takes no further step, in any run |
| PythonSessions.PythonSession.constructor | mistralrs-code-exec/src/session.rs:49-97 | a new session is at the initial state of the protocol, with a fresh child; whether lines deserialize and processes start are parameters |
| PythonSessions.PythonSession.Spawn | mistralrs-code-exec/src/session.rs:174-190 | a respawn replaces child and pipes together and makes the session live, or fails and leaves it dead, exactly as starting the process does |
| PythonSessions.PythonSession.SendRequest | mistralrs-code-exec/src/session.rs:330-335 | one request line is queued, or the child is gone |
| PythonSessions.PythonSession.ReadResponse | mistralrs-code-exec/src/session.rs:337-355 | one line is consumed, and parsed if it is of the right type and deserializes, or the stream ended and `alive` is cleared; the read gives up only after all its turns, and not if a whole line lay within reach or the child was dead with less than that left |
| PythonSessions.PythonSession.TryInterrupt | mistralrs-code-exec/src/session.rs:307-328 | on Unix there is one more read, which gives up only after the whole grace period; the result is true exactly when it parsed a reply, and the run then is back at a quiet state |
| PythonSessions.PythonSession.GiveUp | mistralrs-code-exec/src/session.rs:273-279 | a timeout preserves the session exactly when the interrupt brought a reply, and otherwise kills the child and clears `alive` |
| PythonSessions.PythonSession.ExecuteWithOutputs | mistralrs-code-exec/src/session.rs:217-292 | the method follows a run of the protocol; a request reaches a running or newly started child; a reply read whole and parsed in time is the answer and keeps the session, a broken or missing one fails the call and loses it, and a timeout comes only after the whole time; an answer is this call's answer in the promised namespace, and a session still alive afterwards has empty pipes |
| PythonSessions.PythonSession.Reset | mistralrs-code-exec/src/session.rs:294-304 | success means a live session with an empty namespace; a dead session is reset exactly if a process can be started |
| TensorParallel.InitsAgree | mistralrs-core/src/distributed.rs:629-750 | in every interleaving, for any number of workers, slots, foreign connections of any kind and failures: the k-th init of rank r uses ids[k] and rank r, ranks are 0 to world size - 1, no process hands out an id twice, and nobody leaves an init that another has not entered |
| TensorParallel.LeaderWaitsForAll | mistralrs-core/src/distributed.rs:647-662 | when nobody else writes "ready", the leader leaves its k-th ready loop only when every worker has written exactly one "ready" per round so far and none of their lines is left over, although the lines are anonymous |
| TensorParallel.LeaderWaitsForAllIff | mistralrs-core/src/distributed.rs:647-662 | whoever else connects: when the leader can leave its ready loop, every worker has written its line of each round if and only if as many of their lines are still queued as foreign lines were counted |
| TensorParallel.ImpostorIsCounted | mistralrs-core/src/distributed.rs:652-661 | one foreign "ready" line lets the leader go ahead while its worker has written nothing, and the two then wait for each other |
| TensorParallel.ReadyLoopIsExactIff | mistralrs-core/src/distributed.rs:651-661 | the same at every reachable state with a complete count |
| ReadyRounds.RoundIsSafeIff | mistralrs-core/src/distributed.rs:647-662 | from any reachable state inside a ready loop without failures: in every continuation of the round without further foreign "ready" lines the leader goes into init only with everyone announced, if and only if everyone has announced itself already, or no foreign line is counted or queued where it will be |
| ReadyRounds.RoundIsSafeIffAfterRun | mistralrs-core/src/distributed.rs:629-662 | the same after every failure-free run from the start |
| TensorParallel.NextKeepsInv | mistralrs-core/src/distributed.rs:492-542 | every step of any process keeps the invariant of ids, rounds, counts and barrier |
| TensorParallel.CanFinish | mistralrs-core/src/distributed.rs:629-750 | from every reachable state without failures in which the leader is not blocked by a silent connection and no worker is stranded, every rank can initialise every slot, by steps of the ranks alone and within an explicit number of them |
| TensorParallel.HandshakeCompletesIff | mistralrs-core/src/distributed.rs:647-662 | after any failure-free run, the handshake can be completed while silent connections stay silent if and only if the leader can complete its count without reading from one of them and has not gone into an init for which a worker has not announced itself |
| TensorParallel.SilentConnectionBlocks | mistralrs-core/src/distributed.rs:652-656 | a process that connects to the first listener and neither writes nor closes keeps the handshake from ever completing, whatever anyone else does short of the leader dying |
| TensorParallel.BlockedNeverFinishes | mistralrs-core/src/distributed.rs:652-656 | once blocked, no run completes the handshake until a silent connection speaks or the leader fails |
| TensorParallel.StrandedNeverFinishes | mistralrs-core/src/distributed.rs:530-542 | once the leader is in an init for which a worker has not announced itself, no run completes the handshake unless the leader fails |
| TensorParallel.NoImpostorNoStranding | mistralrs-core/src/distributed.rs:647-662 | without a foreign "ready" line that never happens |
| TensorParallel.AheadBound | mistralrs-core/src/distributed.rs:652-661 | as many lines as workers means one from every worker |
| TensorParallel.Session.NextTensorParallelId | mistralrs-core/src/distributed.rs:508-528 | hands out the ids in order, one per call, fails without changing anything when they are used up, and is the `TakeId` step of a process with that session |
| TensorParallel.AwaitWorkers | mistralrs-core/src/distributed.rs:650-661 | the loop is a run of `Accept` steps that counts only "ready" lines, stops at the very connection that completes the count, and waits at a silent one |
| SessionTable.StepsKeepInv | mistralrs-code-exec/src/lib.rs:213-305 | reference counts, locks, table entries and the reaper's lists stay consistent in every run of any callers and the reaper |
| SessionTable.DroppedIffUnreferenced | mistralrs-code-exec/src/lib.rs:213-305 | a session and its child are dropped exactly when neither the table nor any caller has a handle |
| SessionTable.SameSessionUntilReaped | mistralrs-code-exec/src/lib.rs:218-233 | two calls on one id with no reap of it in between get the same session |
| SessionTable.LockDiscipline | mistralrs-code-exec/src/lib.rs:496-514 | one user per session at a time, and nobody waits for the map lock while holding a session lock |
| SessionTable.CanSettle | mistralrs-code-exec/src/lib.rs:496-555 | no reachable state is deadlocked: all callers can finish and the pass can end |
| SessionTable.LockedSessionCanBeReaped | mistralrs-code-exec/src/lib.rs:283-295 | a run in which the reaper removes a session whose lock is held |
| SessionTable.ReapIsSafeIffUnshared | mistralrs-code-exec/src/lib.rs:286-295 | removing a session found idle can never hit one in use if and only if the table holds the only handle when it is probed |
| ReaperPasses.RemovedWasIdle | mistralrs-code-exec/src/lib.rs:284-295 | in every run, an entry that the reaper removes was probed in that very pass, and at the probe nobody was inside its session and its last use, or its creation, was at least 3600 seconds ago |
| ReaperPasses.ProbeDecides | mistralrs-code-exec/src/lib.rs:286-295 | conversely, in every run: a session locked at its probe, or used less than 3600 seconds before, keeps its entry until the pass ends, and a free and unused one is gone when the pass ends |
| ReaperPasses.StampIsLastUse | mistralrs-code-exec/src/lib.rs:286-289 | in every run the stamp of a session is the time of the last call inside it, or of its creation |
| ReaperPasses.PassProbesAll | mistralrs-code-exec/src/lib.rs:285-292 | a pass can end only after it has probed every entry that was in the table when it began |
| Marlin.UnpackOfPack | scripts/convert_awq_marlin.py:25-78 | unpacking undoes packing, for 4 and 8 bits and every row of values in range |
| Marlin.PackOfUnpack | scripts/convert_awq_marlin.py:25-78 | packing undoes unpacking, for every row of 32-bit words |
| Marlin.FieldOfPack | scripts/convert_awq_marlin.py:42-43 | each field of a packed word is the value that was put there |
| Marlin.PackWordIsNumber | scripts/convert_awq_marlin.py:42-43 | a packed word is the number whose digits, least significant first, are its values |
| Marlin.PackOfFields | scripts/convert_awq_marlin.py:69-72 | a word is rebuilt exactly from its fields, all of which are in range |
| Marlin.PackCols | scripts/convert_awq_marlin.py:25-48 | the strided in-place loop packs every row |
| Marlin.UnpackCols | scripts/convert_awq_marlin.py:51-78 | the in-place shifting loop unpacks every row |
| Marlin.GetScalePerm | scripts/convert_awq_marlin.py:14-18 | the loops build the transposition of an 8 by 8 block |
| Marlin.ScalePermIsInvolution | scripts/convert_awq_marlin.py:14-18 | which is a permutation and its own inverse |
| Marlin.UndoIsInverse | scripts/convert_awq_marlin.py:112-117 | argsort of the interleaving is its inverse permutation |
| Marlin.SourceInBlock | scripts/convert_awq_marlin.py:81-125 | the whole conversion is one column map that stays inside each block of 64 |
| Marlin.SourceIsInvolution | scripts/convert_awq_marlin.py:81-125 | and that is its own inverse |
| Marlin.SourceForFourBits | scripts/convert_awq_marlin.py:81-125 | in numbers, for 4 bits: column 8 i + j of a block comes from column 8 EvensFirst(j) + Riffle(i), which take 0 2 4 6 1 3 5 7 and its inverse |
| Marlin.SourceForEightBits | scripts/convert_awq_marlin.py:81-125 | and for 8 bits, from column 8 SwapMiddle(j) + SwapMiddle(i), which exchanges the two middle ones of each four |
| Marlin.ConversionMovesColumns | scripts/convert_awq_marlin.py:102-125 | converting packed words moves zero-points by exactly that map, for widths that are multiples of 64 |
| MarlinMatrix.ConversionInNumbers | scripts/convert_awq_marlin.py:102-125 | so converting a row of packed words takes column t of every block of 64 from the column of the same block that these numbers give |
| Marlin.ConversionIsInvolution | scripts/convert_awq_marlin.py:102-125 | converting twice is the identity on words, so the conversion is injective |
| Marlin.ConversionConservesBlocks | scripts/convert_awq_marlin.py:102-125 | the multiset of zero-points of every 64-column block is conserved |
| MarlinMatrix.AwqToMarlinZeroPoints | scripts/convert_awq_marlin.py:102-125 | on a whole matrix, unpacking, permuting the flattened entries, cutting into rows and packing converts every row by itself |
| MarlinMatrix.ConversionOfEntry | scripts/convert_awq_marlin.py:102-125 | every zero-point moves to the fixed place in its own row and its own block of 64 columns |
| MarlinMatrix.MovesByRows | scripts/convert_awq_marlin.py:87-99 | moving entries inside the 64-blocks of the flat matrix is moving them inside the blocks of each row |
| Fnv.UpdateHash | mistralrs-flash-attn/build.rs:71-77 | the byte loop computes the recursive hash |
| Fnv.KnownAnswer | mistralrs-flash-attn/build.rs:71-77 | the hash of the string "a" is the published FNV-1a value |
| Fnv.StepInjectiveInState | mistralrs-flash-attn/build.rs:74-75 | one step is injective in the state, since the prime is invertible modulo 2^64 |
| Fnv.StepInjectiveInByte | mistralrs-flash-attn/build.rs:74-75 | and in the byte |
| Fnv.HashInjectiveInState | mistralrs-flash-attn/build.rs:71-77 | different states stay different under any common input |
| Fnv.OneByteChangesHash | mistralrs-flash-attn/build.rs:71-77 | changing one byte of a string changes its hash |
| Headers.HeaderFiles | mistralrs-flash-attn/build.rs:79-98 | the flat traversal returns all headers sorted by path, or an error if and only if some directory cannot be listed |
| Headers.FlashAttnHeaderHash | mistralrs-flash-attn/build.rs:100-107 | hashes names and contents of that list, or fails on a directory that cannot be listed or a header that cannot be read |
| Headers.HashIsOfStream | mistralrs-flash-attn/build.rs:100-107 | the hash is the FNV-1a hash of one string: the path and then the contents of every file, in order |
| Headers.IsHeaderIff | mistralrs-flash-attn/build.rs:85-88 | a file is a header if and only if it has a non-empty name before a last ".h", ".cuh" or ".hpp" |
| Headers.VisitHeaders | mistralrs-core/build.rs:73-95 | the recursive traversal that sorts each directory hashes the same list in the same order and fails on the same trees |
| Headers.CudaHeaderHash | mistralrs-core/build.rs:65-100 | so the two scripts compute the same value on every tree, and fail on the same trees |
| Headers.HashIgnoresEnumerationOrder | mistralrs-core/build.rs:75-78 | the value does not depend on the order in which directories are enumerated |
| Headers.OneByteChangesHeaderHash | mistralrs-flash-attn/build.rs:79-107 | changing exactly one byte of one header anywhere in a tree changes the final hash, for any enumeration orders before and after |
| Headers.HashFilesOk | mistralrs-flash-attn/build.rs:100-107 | there is a hash if and only if every listed header can be read and every directory listed |
| TreeOrder.SortEachDirectory | mistralrs-core/build.rs:74-82 | sorting each directory and descending visits the leaves in path order |
| TreeOrder.EnumerationOrderIsIrrelevant | mistralrs-flash-attn/build.rs:79-98 | the sorted walk depends only on which leaf is at which path |
| Trees.WalkSound | mistralrs-code-exec/src/files.rs:190-221 | everything a pruned walk returns lies in the tree, is wanted, and has no pruned ancestor |
| Trees.WalkComplete | mistralrs-code-exec/src/files.rs:190-221 | and everything of that kind is returned |
| Sorting.SortedUnique | mistralrs-code-exec/src/files.rs:186 | strictly sorted lists with the same elements are equal, so the choice of sorting algorithm does not matter |
| Paths.PathLtIff | mistralrs-code-exec/src/files.rs:186 | the order of paths: the first different component decides, and a path comes before its extensions |
| Paths.NameLtIff | mistralrs-code-exec/src/files.rs:186 | and within a component the first different character |
| OutputFiles.ShouldSkipAutoPath | mistralrs-code-exec/src/files.rs:223-239 | the loop with early returns decides exactly: some component has a skipped name, or the last one a skipped extension |
| OutputFiles.ExtensionTest | mistralrs-code-exec/src/files.rs:223-239 | the extension test looks at what follows the last dot, in any ASCII case, and passes names without a dot |
| OutputFiles.VisitOutputDir | mistralrs-code-exec/src/files.rs:190-221 | the recursive visit appends the pruned walk |
| OutputFiles.WalkOutputFiles | mistralrs-code-exec/src/files.rs:183-188 | the files found, sorted by path |
| OutputFiles.OutputListIsExact | mistralrs-code-exec/src/files.rs:183-239 | a file is found if and only if it is a regular file and every component of its path passes the name and the extension test |
| OutputFiles.OutputListIsSorted | mistralrs-code-exec/src/files.rs:186 | in strictly increasing order |
| OutputFiles.SnapshotOutputFiles | mistralrs-code-exec/src/files.rs:38-42 | the snapshot maps each found path to its state |
| OutputFiles.AppendAutoOutputFiles | mistralrs-code-exec/src/files.rs:54-85 | earlier entries stay untouched; a visible file is appended if and only if it is new or changed, no earlier entry has its name and no explicit output name reads, component by component, as its path; nothing else is appended, and the order is that of the paths |
| OutputFiles.TakenIff | mistralrs-code-exec/src/files.rs:60-69 | a name is taken if and only if an earlier entry has it or an explicit output name reads as that path |
| OutputFiles.ExplicitMeans | mistralrs-code-exec/src/files.rs:256-265 | an explicit output name stands for a path if and only if its components are those of the path |
| OutputFiles.ChangedFilesAreAppended | mistralrs-code-exec/src/files.rs:54-85 | a visible file is appended if and only if it is new or changed since the snapshot and its name is free |
| OutputFiles.AppendedFilesAreChanged | mistralrs-code-exec/src/files.rs:54-85 | every appended name is that of such a file, and read as a path leads back to it |
| OutputFiles.SelectedDistinct | mistralrs-code-exec/src/files.rs:74-79 | no name is appended twice and none that was taken |
| OutputNames.PathToOutputName | mistralrs-code-exec/src/files.rs:267-280 | the loop joins the components, or gives nothing when one is not an ordinary name |
| OutputNames.NameRoundTrip | mistralrs-code-exec/src/files.rs:256-280 | a path of plain components is recovered from its reported name, which is its own normal form |
| OutputNames.JoinInjective | mistralrs-code-exec/src/files.rs:267-280 | different paths are reported under different names |
| OutputNames.NormalizedIsNormal | mistralrs-code-exec/src/files.rs:256-265 | normalising an explicit output name is idempotent and keeps its components |
| OutputNames.ComponentsOfChild | mistralrs-code-exec/src/files.rs:256-280 | a path read from its end: a part after a slash adds one component unless it is empty or ".", and only a leading slash makes a root |
| OutputNames.ComponentsOfPart | mistralrs-code-exec/src/files.rs:256-280 | a path without a slash is one component, or none if it is empty |
| Mount.SafeFileNameIsSafe | mistralrs-code-exec/src/mount.rs:52-72 | a safe name is not empty, not "." or "..", and uses only the safe characters |
| Mount.SafeFileNameKeepsName | mistralrs-code-exec/src/mount.rs:52-72 | character by character it is the file name with exactly the unsafe characters replaced by underscores, and "file" when there is no file name |
| Mount.FileNameOfChild | mistralrs-code-exec/src/mount.rs:53-56 | the file name is the last component whatever precedes it, also before a trailing slash, and ".." has none |
| Mount.SafeNameStaysInside | mistralrs-code-exec/src/mount.rs:37-47 | so joined to the directory it is one ordinary component |
| Mount.CandidateInjective | mistralrs-code-exec/src/mount.rs:82-85 | different suffixes give different candidates |
| Mount.CandidateKeepsExtension | mistralrs-code-exec/src/mount.rs:78-85 | a candidate has the extension of the name and the suffix at the end of its stem; without an extension it is the stem and the suffix |
| FileNames.StemAndExtension | mistralrs-code-exec/src/mount.rs:78-80 | stem and extension split the name at its last dot, and there is no extension exactly for names without a dot, with only a leading dot, and for ".." |
| FileNames.PartsOfName | mistralrs-code-exec/src/mount.rs:78-80 | and a name put together from a stem and an extension is split into them |
| Mount.FirstFreeIsLeast | mistralrs-code-exec/src/mount.rs:81-90 | the search finds the least free suffix from 2 on, at most the number of used names plus 2 |
| Mount.FindFree | mistralrs-code-exec/src/mount.rs:81-90 | the unbounded loop terminates with it |
| Mount.UniqueName | mistralrs-code-exec/src/mount.rs:74-91 | the name itself if it is free, else the first free candidate, which becomes used |
| Mount.MountedInputFiles | mistralrs-code-exec/src/mount.rs:18-28 | the loop over the files allocates the names in order |
| Mount.MountEntry | mistralrs-code-exec/src/mount.rs:20-27 | each entry carries its own file's id and name and the path that is unique after the earlier ones |
| Mount.MountedNamesAreDistinctAndSafe | mistralrs-code-exec/src/mount.rs:18-28 | the names are pairwise distinct and safe, for every list of files |
| Mount.ExtendingKeepsNames | mistralrs-code-exec/src/mount.rs:18-28 | appending files to the list keeps every earlier name |
| Mount.MountInputFiles | mistralrs-code-exec/src/mount.rs:30-50 | succeeds if and only if the list is empty or everything can be created, decoded and written; then every file with content, its text or else its decoded data, is found intact at its own name and nothing else has changed; after a failure that holds of the files before the first one that cannot be decoded or written |
| InputMounts.MountCache.MountInputFiles | mistralrs-code-exec/src/session.rs:200-215 | directory and key are what the calls so far, failed ones included, have made of them; a list with the key of the last successful mount is not mounted again; after success its files are intact if and only if they had to be mounted, or the latest writes to their paths wrote the same contents; a failure keeps the old key |
| InputMounts.KeyTellsLabels | mistralrs-code-exec/src/session.rs:204-208 | the key tells apart lists that differ in length or in any id, name or size, when ids have no colon or line break and names no line break |
| InputMounts.SameLabelsAreStale | mistralrs-code-exec/src/session.rs:204-211 | files with equal id, name and size share key and path, so with other contents the second is reported as mounted and is not |
| InputMounts.FailedMountMakesHitStale | mistralrs-code-exec/src/session.rs:209-214 | after mounting a file, and then a list that overwrites it and fails, the key is still that of the first mount, and that file is not intact |
| InputMounts.PartWayHappens | mistralrs-code-exec/src/session.rs:212-213 | such a failure happens whenever the second file of the list cannot be decoded |
| InputMounts.ColonsCollide | mistralrs-code-exec/src/session.rs:204-208 | ids and names cut at different colons have the same key |
| Masks.CausalChunksStack | mistralrs-core/src/layers_masker.rs:80-86 | for every split of a prompt, the causal masks of the chunks, padded and stacked, are the causal mask of the prompt |
| Masks.CausalRowShowsPast | mistralrs-core/src/layers_masker.rs:80-86 | a causal row shows exactly the columns up to its own position |
| Masks.SlidingChunksStack | mistralrs-core/src/layers_masker.rs:124-151 | the same for sliding-window masks of any window |
| Masks.SlidingRowShowsWindow | mistralrs-core/src/layers_masker.rs:124-151 | a row shows exactly min(q_pos + 1, window) columns, contiguous and ending at q_pos |
| Masks.SlidingIsCausalAndNear | mistralrs-core/src/layers_masker.rs:289-311 | without a past, sliding is the intersection of causal and bidirectional sliding |
| Masks.BidirectionalRowShowsNear | mistralrs-core/src/layers_masker.rs:289-311 | a bidirectional sliding row shows exactly the columns closer than the window, on both sides |
| Masks.SlidingIsCausalIff | mistralrs-core/src/layers_masker.rs:124-151 | sliding equals causal if and only if there are no queries or everything fits into the window |
| Masks.ChunkedRowShowsChunk | mistralrs-core/src/layers_masker.rs:88-122 | a chunked row shows the whole past and, of the new tokens, those from the start of its chunk to itself |
| Masks.ChunkedIsCausalIff | mistralrs-core/src/layers_masker.rs:88-122 | chunked equals causal if and only if one chunk holds all new tokens, whatever the past |
| Masks.ChunkedChunksStackIff | mistralrs-core/src/layers_masker.rs:88-122 | the chunked masks of the pieces of a prompt, stacked, are the chunked mask of the prompt if and only if the prompt fits into one attention chunk or lies in one piece |
| Masks.SingleTokenShortcut | mistralrs-core/src/layers_masker.rs:203-213 | no mask for a single token equals the mask it replaces always in causal mode, and in sliding mode if and only if the past is shorter than the window |
| Masks.PromptMask | mistralrs-core/src/layers_masker.rs:194-228 | for any other number of tokens, any configuration and flash setting: there is a mask if and only if one is forced or flash is not in use, its row i shows exactly the columns from q + 1 - min(q + 1, window) to q = past + i, or from 0 without a window, and otherwise causality is left to the kernel |
| Masks.SingleTokenChunkedShortcut | mistralrs-core/src/layers_masker.rs:230-246 | in the chunked entry point the shortcut is always exact |
| Masks.ChunkedPromptMask | mistralrs-core/src/layers_masker.rs:230-262 | for any other number of tokens it gives a mask whose row i shows exactly the past and the new tokens from the start of the chunk of i to i |
| Gemm.GemmAccum | mistralrs-npu/gemm_kernel.cpp:17-32 | every cell of C is the old cell with all K products accumulated in order, for any multiply-accumulate |
| Gemm.GemmFresh | mistralrs-npu/gemm_kernel.cpp:37-52 | the same from zero |
| Gemm.CellIsRowTimesColumn | mistralrs-npu/gemm_kernel.cpp:22-31 | so cell (i, j) is its old value with row i of A, which lies side by side, and column j of B, which lies N apart, folded into it from the front |
| Gemm.FreshEqualsAccumOnZeros | mistralrs-npu/gemm_kernel.cpp:17-52 | the plain kernel leaves the same C as the accumulating one on a zeroed C |
| Gemm.DotSplit | mistralrs-npu/gemm_kernel.cpp:26-28 | accumulating over the first and then the second part of K is accumulating over K |
| Gemm.SplitCallsCompose | mistralrs-npu/gemm_kernel.cpp:17-32 | two calls on operands split along K leave, element for element, the C of one call, although the operation need not be associative |
| Gemm.ConcatIsRowSplit | mistralrs-npu/gemm_kernel.cpp:9-10 | splitting B by rows is splitting its storage |
| RepeatKv.RepeatKvRepeatsHeads | mistralrs-core/src/layers_utils.rs:3-10 | out[b, h, s, d] is x[b, h / n_rep, s, d], for all dimensions |
| RepeatKv.RepeatKvSucceedsIff | mistralrs-core/src/layers_utils.rs:3-10 | it succeeds if and only if n_rep is 1, or is larger and the tensor has rank 4; with n_rep 1 it is the identity |
| RepeatKv.CatEntry | mistralrs-core/src/layers_utils.rs:8 | copy r of outer position o of the concatenation is the block of o |
| Alibi.ApplyCausal | mistralrs-flash-attn/kernels/alibi.h:36-50 | each entry of the fragment gets the bias of its column once |
| Alibi.ApplyGeneral | mistralrs-flash-attn/kernels/alibi.h:51-69 | each entry gets the bias of its row and column once |
| Alibi.FragmentLayout | mistralrs-flash-attn/kernels/alibi.h:36-64 | where a register lies: two columns side by side, column groups 8 apart, two rows 8 apart, row groups one stride apart, and two columns more for every lane of a quad |
| Alibi.BiasFallsWithDistance | mistralrs-flash-attn/kernels/alibi.h:64 | the general bias is 0 on the diagonal and one slope less for every step away from it, on both sides |
| Alibi.BranchesDifferByShiftIff | mistralrs-flash-attn/kernels/alibi.h:36-69 | with a nonzero slope the branches differ by the row's constant if and only if the column is on or before the diagonal |
| Alibi.SoftmaxIsTheSame | mistralrs-flash-attn/kernels/alibi.h:36-69 | so over unmasked columns both branches give the same softmax weights |
| Alibi.ApplyBoth | mistralrs-flash-attn/kernels/alibi.h:36-69 | on two equal fragments the branches leave rows with the same softmax weights over any of their unmasked columns |
| Alibi.FragmentRowWeights | mistralrs-flash-attn/kernels/alibi.h:36-69 | the same for one row of a fragment |
| Alibi.ColumnsAreCovered | mistralrs-flash-attn/kernels/alibi.h:36-44 | lanes and registers reach every column of the tile |
| Alibi.ColumnsAreDistinct | mistralrs-flash-attn/kernels/alibi.h:36-44 | and no two of a quad reach the same one |
| ResourcePlan.PlanCoversBudget | mistralrs-core/src/resource_plan.rs:44-97 | n active models that share a budget of at least 1 are given at most n - 1 more than it; they are given all of it if and only if saturation takes no more than rounding up adds, and in particular when no product overflows |
| ResourcePlan.SharesCoverBudget | mistralrs-core/src/resource_plan.rs:70-75 | the same bounds and the same exact condition for the sum of the shares |
| ResourcePlan.SharesAndLosses | mistralrs-core/src/resource_plan.rs:70-75 | shares and losses together, weighted, are exactly the budget by weight plus what rounding up adds |
| ResourcePlan.ShareRange | mistralrs-core/src/resource_plan.rs:70-75 | a share lies between 1 and the whole budget |
| ResourcePlan.ShareMonotone | mistralrs-core/src/resource_plan.rs:70-75 | shares are monotone in the budget |
| ResourcePlan.ShareIsFairIff | mistralrs-core/src/resource_plan.rs:70-75 | saturation changes a share if and only if the product exceeds the limit rounded up to a multiple of the total weight |
| ResourcePlan.SaturationLosesBudget | mistralrs-core/src/resource_plan.rs:70-75 | a concrete budget of which saturation loses a third |
| ResourcePlan.WholeWeightIffAlone | mistralrs-core/src/resource_plan.rs:45-50 | a model's weight is the whole weight if and only if no other model is active |
| ResourcePlan.PlanEntry | mistralrs-core/src/resource_plan.rs:52-113 | inactive models stay inactive; every setting but the memory budget, the resolution flag and fit_ctx is kept; fit_ctx is kept if and only if it was off; the flag survives if and only if it was set and the model is alone; a minimum stays below its target; budgets stay in 1 to the original |
| ResourcePlan.PlanShares | mistralrs-core/src/resource_plan.rs:44-97 | each kind of budget stays of its kind, except that an amount becomes a best effort without a minimum; each amount, each minimum and each context size becomes the least positive number that is not below its proportion of the sequences of all active models, cut off at 64 bits; a fraction becomes that proportion of it |
| ResourcePlan.FractionIsConserved | mistralrs-core/src/resource_plan.rs:77-97 | fractions shared among active models add up to exactly what each of them asked for |
| DeviceSpec.ParseIffSpells | mistralrs-core/src/device_spec.rs:51-96 | a string is accepted as a device if and only if it is one of its spellings: blanks around, any case, the rocm alias, and any number that fits |
| DeviceSpec.NamesAlone | mistralrs-core/src/device_spec.rs:52-64 | what each name alone means, in any case |
| DeviceSpec.NamesWithIndex | mistralrs-core/src/device_spec.rs:65-83 | what each name with an index means, in any case |
| DeviceSpec.OtherNamesFail | mistralrs-core/src/device_spec.rs:65-94 | nothing else is accepted: no other name, no index after "cpu", and no index that is not a number |
| DeviceSpec.NumberSpellings | mistralrs-core/src/device_spec.rs:65-68 | plus signs and leading zeros do not matter, and an index that does not fit in 64 bits is rejected |
| DeviceSpec.ParseOfDisplay | mistralrs-core/src/device_spec.rs:476-488 | parse of display is the identity, for every specification and index |
| DeviceSpec.DisplayIsNormalForm | mistralrs-core/src/device_spec.rs:455-474 | parse, display, parse equals parse on all accepted strings |
| DeviceSpec.DisplayInjective | mistralrs-core/src/device_spec.rs:476-488 | different specifications print differently |
| DeviceSpec.DisplayIsShortest | mistralrs-core/src/device_spec.rs:476-488 | of all spellings of a device the printed one is a shortest, in lower case |
| DeviceResolve.FirstAvailable | mistralrs-core/src/device_spec.rs:279-291 | the loop returns the first success, or the last error |
| DeviceResolve.FirstFromIsLeast | mistralrs-core/src/device_spec.rs:279-291 | the success with the lowest ordinal below 32, or, when all fail, the error of the last one |
| DeviceResolve.Resolve | mistralrs-core/src/device_spec.rs:164-270 | resolution terminates in every build with the specified outcome |
| DeviceResolve.ResolutionIsGated | mistralrs-core/src/device_spec.rs:164-270 | in every build, on every machine, for every specification: each construction comes after a passing probe of the same runtime, and a device that is returned was the last one constructed |
| DeviceResolve.AutoSelectIsGated | mistralrs-core/src/device_spec.rs:297-339 | the same for automatic selection |
| DeviceResolve.ExplicitTakesIndex | mistralrs-core/src/device_spec.rs:164-267 | an explicit index gives that very device, or an error if and only if the build, the runtime or the construction does not allow it |
| DeviceResolve.BareNameTakesLowest | mistralrs-core/src/device_spec.rs:240-269 | a bare name gives the lowest ordinal below 32 that constructs on the runtime of that build, or an error if and only if there is none |
| DeviceResolve.AutoSelectChoice | mistralrs-core/src/device_spec.rs:297-339 | automatic selection takes device 0 of the serving role, and the CPU if and only if no runtime of the build is present |

## Left out

- Sessions: sandboxing, permissions, JSON, stderr collection and dropping a call's future are not modelled. Whether a line deserializes and whether a process can be started are parameters, and time is a number of turns. Assumed: only the executor writes to the child's real stdout, writing and reading fail only when the child is gone, and a reset reply that arrives whole parses.
- PythonSessions.PythonSession.Reset: waits a bounded number of turns, because the source has no time limit there; a pending reset is reported as such and `SessionProtocol.ResetCanReturn` says that it can still return.
- Tensor parallelism across nodes, the ring backend, the path without a session, and `select_compatible_tensor_parallel_size`: they rest on process spawning and metadata outside this model. Assumed: as many workers are spawned as the world size needs, the ids of a session are pairwise distinct, a worker that connects reaches the leader's ready listener (the engine later opens a listener under the same socket name, `mistralrs-core/src/engine/mod.rs:2382-2388`), and communicator init is a barrier.
- `scale_perm_single`: computed by the script but not used for zero-points. Bit widths other than 4 and 8 raise an exception in the script and are outside `Supported`.
- Marlin: the assertions on tensor shapes in the script are preconditions; signed and unsigned 32-bit words are identified.
- Real file systems: trees are finite, symbolic links in header trees are taken as already followed, unreadable directories below the working directory are empty, and names are Unicode strings.
- Headers.FlashAttnHeaderHash: which input/output error is reported is not modelled, only whether there is one; the rendering of a path as bytes is a parameter.
- OutputFiles.AppendAutoOutputFiles: reading a file, formats, mime types and size limits are one function parameter; names in a tree must be non-empty and free of "/", as the operating system guarantees.
- Mount.MountInputFiles: base64 decoding, the outcome of a write and the creation of the directory are parameters; a failing write leaves the directory as it was.
- Mount.UniqueName: the suffix does not overflow, since that would need 2^64 used names.
- Masks: masks are lists of rows rather than one flat vector; hidden is a truth value rather than minus infinity; `make_mask_chunked` divides by the chunk size, which must be positive.
- Gemm.GemmAccum: also describes `gemm_vec_bf16`, whose body is the same; sizes are natural numbers.
- Alibi: scores are real numbers, so float rounding is not modelled, and `exp` is any positive function that turns sums into products.
- ResourcePlan.PlanCoversBudget: the utilization share is over real numbers and not part of the sum, and the sum of the weights does not overflow.
- DeviceResolve: capability reporting, logging and the text of error messages.
- Model loading, tokenisation, quantisation formats other than the above, servers, command line and bindings.
