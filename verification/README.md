# A verified model of the Xacto transactional object store

Xacto is a server for a multi-version, timestamp-ordering object store. Each key has a list of versions sorted
by the id of the transaction that created them. A PUT or GET first collects garbage in the list, then rejects
(aborts) a transaction whose id is too small, and otherwise adds a version and makes the transaction dependent
on the creators of earlier pending versions. A COMMIT waits for the dependencies and then commits or aborts.
This project models the store, its transaction manager, the blobs and keys it stores, and the buffered stream
and packet layer below it, and proves what the headers promise.

The model has three levels, each proved to refine the one above.

1. **The protocol** (`Protocol`, `VersionLists`, `Invariant`, `Serializability`, `Recoverability`): a step
   machine over statuses, dependency lists and one version list per key. The whole-run theorems are here:
   serializability, final-state equivalence, recoverability, the shape of version lists, collection. The state
   also carries two pieces of history, the log of operations and the committed versions already collected.
2. **The machine** (`References`, `Waiting`, `Machine`, `Books`, `Ids`, `MachineInvariant`, `MachineTheorems`,
   `Freeing`, `Progress`, `BlobBooks`, `BlobRuns`): adds numeric ids, reference counts with cascading frees, commit
   threads that register, block and resume, and the references callers hold. Every call is at most one step of the
   protocol. Ids, conservation of references, which transactions are freed, wake-ups, progress and blob references
   are proved here.
3. **The memory** (`Data`, `BlobPool`, `Transactions`, `VersionLinks`, `Collection`, `Installation`, `StoreFacts`,
   `Store`, `Replay`): classes for transaction records on their circular doubly linked list, version records on
   doubly linked lists, map entries in eight buckets, keys, and blobs with their reference counts. Their methods
   are the functions of store.c, transaction.c and data.c. A `Stores.Store` has a ghost field `s`, a state of the
   machine with its blobs, and `Valid` says that the records show `s` and that some run of the machine reaches
   `s`, so every theorem of the upper levels is about the memory as well. Each operation takes `s` through one
   move of the machine, a whole commit through a run of moves, and says which records are fresh. In the other
   direction, `Replays.Replay` is a client that carries out any run of the machine on a store of its own.

`Effects` spells out what every call does, by quantifiers and plain updates instead of the functions that the model
computes it by: who is admitted, what becomes of each list, status and dependency set, and of each caller's
references. The contracts of `Stores.Store` carry these statements.

Beside them stand `Rio` and `Packets`: the loops over `read` and `write`, with a script that says how much each
call transfers, when it is interrupted and when it fails, and the packet layer over them.

## How the model reads the source

Every line of store.c and transaction.c is commented out, and the build links a prebuilt library that is not
part of this model. The contract text in store.h and transaction.h is therefore taken as the meaning, and the
commented bodies as the decomposition into functions. Where a body disagrees with its header the model follows
the header:

- Collection, the id check and the append work on the entry whose key matched; the bodies use the first entry of
  the bucket (hw5/src/store.c:42-69). A matched entry whose list is empty is not added a second time
  (hw5/src/store.c:42-46), and GET adds a missing entry before installing, as PUT does (hw5/src/store.c:112-113).
- The buckets are the plain linked lists of the header, without the key-less entry at the end of each that
  hw5/src/store.c:14-20 creates.
- The aborted version and all later ones are unlinked and their creators aborted; the bodies only dispose of them
  (hw5/src/store.c:208-211, hw5/src/store.c:247-259). Since trans_abort consumes a reference, one is taken for it.
- The prev link of a new list head is cleared, which hw5/src/store.c:221-227 does not do.
- A commit keeps the status that another thread gave the transaction meanwhile, and sets a status before posting
  (hw5/src/transaction.c:160-169). The branch that aborts wakes waiters the same way and lets go of the mutex
  (hw5/src/transaction.c:146-153). The waitcnt of the awaited transaction changes atomically
  (hw5/src/transaction.c:138-142).
- Aborting a committed transaction is the fatal outcome (`None`), not the status COMMITTED
  (hw5/src/transaction.c:193-195).
- Dependency nodes give back their references when they are freed (hw5/src/transaction.c:330-342).
- The key, and on rejection the value, that PUT and GET inherit are released when no entry or version keeps them
  (hw5/src/store.c:47-49).

Five points where the model follows the code and a reader might expect something else:

- "Every transaction has a unique transaction ID" (hw5/include/transaction.h:18) is false over whole runs. The id
  after the newest live one is handed out, so a transaction that is freed without an heir passes its id on.
  `MachineTheorems.IdOfFreedReissued` is the counterexample, `MachineTheorems.NextIdFreshExactly` the exact
  condition, and `MachineTheorems.CommittedIdNeverReissued` what makes ids good enough as a serialization order.
- "Once a transaction has aborted, it is not possible to perform any further operations within it"
  (hw5/include/transaction.h:26-27) is false: nothing in store_put or store_get looks at the status before
  installing. `Recoverability.AbortedOperates` is a reachable state in which an aborted transaction can put, with
  effect, and `MachineTheorems.AbortedMayOperate` a world that calls of the transaction manager and the store lead
  to. `Recoverability.AbortedOperatesExactly` is the exact condition, which the id check decides
  (hw5/src/store.c:47-50). The other half, that all its effects are deleted, holds once the key is collected:
  `Recoverability.AbortedLeavesNothing` and `Recoverability.AbortedVersionsGo`.
- A rejected PUT or GET consumes the caller's reference to the transaction, because it ends in trans_abort. The
  caller of the model has a reference for whatever it still does. While a commit is under way, one reference is the
  one that the commit drops when it returns, and a caller drops only others.
- "0 in case of successful reception" (hw5/include/protocol.h:101) fails for a header or payload that the end of
  the stream cuts short after at least one byte, since only results that are not positive are rejected
  (hw5/src/protocol.c:26, hw5/src/protocol.c:41). `Packets.HeaderCutShort` and `Packets.PayloadCutShort` are such
  inputs, and `Packets.ReceptionExact` says exactly when reception is what the header promises; the contract of
  `Packets.ReceivePacket` carries that condition.
- "-1 otherwise. In the latter case, errno is set to indicate the error" (hw5/include/protocol.h:101-102) fails at
  the end of the stream, where rio_readn returns 0 (hw5/src/csapp.c:768-770) and nothing sets errno.
  `Packets.EndWithoutErrno` is such a reception; errno indicates an error exactly if a read has failed, which is in
  the contract of `Packets.ReceivePacket`.

Names in the model: a transaction is named by its position in the order of creation, and `ids` maps names to the
numeric ids of the program. Each lock-protected section is one atomic step. A commit is split where the thread lets
go of the mutex: looking at a dependency, registering and blocking, resuming, finishing.

## Model

| member | source | states |
|---|---|---|
| Serializability.Serializable | hw5/include/store.h:66-73 | in every reachable state, replaying exactly the committed transactions one at a time, in the order of creation, every GET returns the value that it returned in the interleaved run, own writes included |
| MachineTheorems.SerializableById | hw5/include/store.h:66-73 | the same with numeric ids as the order: the replay visits strictly increasing ids, and no two transactions that operated and committed share one |
| MachineTheorems.SerialLogExact | hw5/include/store.h:66-73 | the replayed log holds, for every committed transaction, its operations as issued, and nothing of any other transaction |
| Serializability.CurrentIsSerial | hw5/include/store.h:33-35 | the value of the committed version with the greatest creator, NULL when there is none, is the key's value after that replay |
| Serializability.CollectKeepsValues | hw5/include/store.h:41-50 | collecting any key changes the current value of no key |
| Serializability.SerialHistory | hw5/include/store.h:66-73 | for every key the replayed operations are legal from NULL and end in the current value |
| Serializability.SerialKey | hw5/include/store.h:66-73 | a version chain in which each version's incoming value is the final value of the one before decomposes a serial replay into per-key folds |
| Invariant.ReachableInv | hw5/include/store.h:27-39 | every reachable state satisfies the invariant: sorted lists, explained chains, commits only over committed dependencies, tracked reads |
| Invariant.ApplyKeeps | hw5/include/store.h:41-64 | every step of the protocol keeps that invariant |
| Invariant.CollectKeeps | hw5/src/store.c:194-214 | a pass keeps the invariant, leaves no aborted version in the list and only turns pending transactions into aborted ones |
| Invariant.PerformKeeps | hw5/src/store.c:51-71 | an admitted operation on a collected list keeps the invariant |
| Invariant.PerformChain | hw5/src/store.c:334-355 | installing extends the whole history of a key the way it extends the list, and a GET's value is the last one of that history |
| Recoverability.CommittedClosure | hw5/include/transaction.h:41-46 | everything that a committed transaction depends on, directly or not, has committed |
| Recoverability.CommittedReads | hw5/include/transaction.h:41-46 | a committed transaction read only from committed transactions and from itself |
| Recoverability.AbortDooms | hw5/include/transaction.h:41-46 | once a transaction has aborted, no direct or transitive dependent is committed in any continuation |
| Recoverability.AbortedOperates | hw5/include/transaction.h:26-27 | a reachable state in which a transaction has aborted and nothing has been done yet, a PUT of that transaction is possible, and it takes effect: "it is not possible to perform any further operations" is false of the code |
| MachineTheorems.AbortedMayOperate | hw5/include/transaction.h:26-27 | the same of the machine, with its references and threads: a PUT that comes too late aborts its transaction, and a further PUT of the same transaction is allowed and takes effect |
| Recoverability.AbortedOperatesExactly | hw5/src/store.c:47-71 | in a reachable state an operation of an aborted transaction is carried out if and only if the list that collection leaves has no greater creator; otherwise nothing but the collection happens |
| Recoverability.AbortedLeavesNothing | hw5/include/transaction.h:26-27 | what remains of the promise: after such an operation the next collection of the key leaves every list and every status as it would without the operation |
| Recoverability.AbortedVersionsGo | hw5/include/transaction.h:26-27 | after a collection of a key no version of an aborted transaction is left in its list |
| Recoverability.DependenciesDescend | hw5/src/store.c:357-366 | dependency paths lead to strictly older transactions, so waiting is acyclic |
| Recoverability.RunsLater | hw5/include/transaction.h:157-167 | over any continuation decisions are final and dependency sets only grow |
| Recoverability.ListsInOrder | hw5/include/store.h:26-34 | in every reachable state creators strictly increase along a list, and committed versions come before pending and aborted ones |
| Recoverability.CollectedShape | hw5/include/store.h:41-50 | after a pass: at most one committed version, first, there exactly if there was any; then pending ones only; empty if all were aborted |
| Recoverability.CollectionNeverFatal | hw5/include/transaction.h:142-146 | no version from the first aborted one on has a committed creator, so the fatal case of abort is out of reach of PUT and GET |
| Recoverability.CollectAbortsExactly | hw5/include/store.h:44-45 | a pass aborts exactly the creators of the versions from the first aborted one on |
| Recoverability.CollectIdempotent | hw5/include/store.h:41-50 | a second pass changes nothing |
| Effects.AdmittedExactly | hw5/include/store.h:52-55 | an operation is admitted if and only if every version that the pass has left has a creator that is not later than the transaction; the transaction itself may be the creator of the last one |
| Effects.AccessExactly | hw5/include/store.h:52-64 | an operation whose transaction is not earlier than any creator adds its version at the end or in the place of its own last one, logs itself and makes the transaction dependent on exactly the other pending creators; any other aborts its transaction and does nothing else |
| Effects.ReadsLast | hw5/include/store.h:66-70 | a GET reads the value of the last version left, NULL when there is none |
| Effects.OwnVersion | hw5/include/store.h:56-61 | whoever created the last version left is admitted, reads its value, and has it replaced |
| Effects.ReadsOwnWrite | hw5/include/store.h:66-73 | after an admitted PUT of a pending transaction its GET of the key is admitted, returns the value put, and aborts nobody |
| VersionLists.CollectSplits | hw5/include/store.h:41-50 | a pass splits a list, in order, into superseded committed versions, the kept versions, and the aborted version with all later ones |
| Effects.PassExactly | hw5/include/store.h:41-50 | a pass leaves the versions from the last committed one before the first aborted one up to before that, makes exactly the creators from there on aborted, and changes no other list, no dependency and no operation done |
| VersionLists.AddDependenciesAdds | hw5/src/store.c:357-366 | the dependency set gains exactly the pending creators other than the transaction itself |
| VersionLists.AddDependenciesDistinct | hw5/src/transaction.c:103-128 | no transaction occurs twice in a dependency set |
| VersionLists.MaxCreatorIsMax | hw5/src/store.c:293-305 | the greatest creator of a list is one of its creators and none is greater |
| VersionLists.AbortCreatorsAt | hw5/src/store.c:247-259 | aborting the creators of a list makes exactly those transactions aborted |
| References.UnrefBalanced | hw5/src/transaction.c:72-100 | dropping a reference keeps every count equal to its holders, through every free that it sets off |
| References.UnrefShrinks | hw5/src/transaction.c:313-342 | the cascade of frees raises no count |
| Waiting.BlockedCanResume | hw5/src/transaction.c:138-145 | once a transaction is decided nobody is registered with it and every thread still blocked on it finds a post |
| Waiting.FinishKeeps | hw5/src/transaction.c:159-174 | deciding a transaction and posting for its waiters keeps registrations plus posts equal to blocked threads |
| Waiting.RegisterKeeps | hw5/src/transaction.c:138-141 | so does registering with a pending dependency and blocking |
| Waiting.ResumeKeeps | hw5/src/transaction.c:142-144 | so does consuming a post |
| Waiting.WakeCreatorsKeeps | hw5/src/transaction.c:223-255 | so does aborting, from another thread, the creators that a collection takes back |
| MachineInvariant.PossibleInv | hw5/include/transaction.h:16-57 | every world that a run of calls can reach satisfies the invariant of the whole machine |
| MachineInvariant.DoKeeps | hw5/include/transaction.h:97-167 | every call keeps it, and never revives a freed transaction |
| MachineInvariant.AccessKeepsWorld | hw5/src/store.c:37-135 | PUT and GET keep it, and deciding by numeric ids does exactly what deciding by order of creation does |
| MachineInvariant.CommitStepKeepsWorld | hw5/src/transaction.c:130-175 | so does every step of a commit |
| MachineTheorems.PossibleReachable | hw5/include/store.h:52-64 | the machine with ids, counts and commit threads refines the abstract protocol, so every theorem about the protocol holds of it |
| MachineTheorems.DoIsEvent | hw5/include/store.h:52-64 | each call takes the protocol through at most one of its steps |
| Effects.CreateExactly | hw5/include/transaction.h:91-97 | creation: a pending, idle transaction without dependencies, count 1 and one reference in its caller's hands; nothing else changes |
| Effects.NextIdExactly | hw5/src/transaction.c:39-53 | the new id is 0 when no transaction is live and otherwise one more than the greatest id of a live one |
| Effects.RefExactly | hw5/include/transaction.h:99-106 | the count and the caller's references each grow by one, nothing else changes |
| Effects.UnrefExactly | hw5/include/transaction.h:108-115 | the count and the caller's references each go down by one; no other count grows and nothing else changes |
| Effects.EnterExactly | hw5/src/transaction.c:130-134 | asking for a commit only puts the thread before the first dependency |
| Effects.CommitStepExactly | hw5/include/transaction.h:125-136 | a commit step returns COMMITTED after the last dependency, all of them committed, returns ABORTED at an aborted one, and otherwise changes nothing but where the thread is, registrations and posts |
| Effects.CommitConsumes | hw5/include/transaction.h:132-133 | a commit consumes one of the caller's references with the step that returns, whatever the status, and none before |
| Effects.AbortExactly | hw5/include/transaction.h:141-153 | an abort makes a pending transaction aborted and consumes one reference |
| Effects.AccessById | hw5/src/store.c:261-291 | PUT and GET are carried out if and only if no version left has a creator with a numeric id greater than the transaction's, and then consume no reference; a rejected one consumes one |
| MachineTheorems.IdsDescend | hw5/src/transaction.c:33-70 | among live transactions a later one has a greater id, and the next id is above them all |
| MachineTheorems.CommittedIdNeverReissued | hw5/src/transaction.c:33-70 | the id of a committed transaction that operated on the store is below every id handed out later, whether it has been freed or not |
| MachineTheorems.NextIdFreshExactly | hw5/include/transaction.h:18-20 | the next id is a new one exactly when nothing was created yet or some transaction with the greatest id handed out so far is still live |
| MachineTheorems.IdOfFreedReissued | hw5/include/transaction.h:18-20 | a reachable world in which two transactions have been given the id 0, so ids are not unique over a whole run |
| MachineTheorems.ReferencesConserved | hw5/include/transaction.h:62-79 | every reference count is the number of versions naming the transaction, plus dependency nodes pointing to it, plus references that callers hold |
| MachineTheorems.NothingDangles | hw5/src/transaction.c:313-342 | no version and no dependency node of a live transaction points to a freed one |
| Freeing.FreedForGood | hw5/src/transaction.c:80-100 | a freed transaction was decided or never operated on the store; it stays freed, with the status it has |
| Freeing.FreedUndecidedExactly | hw5/src/transaction.c:80-100 | a call frees a transaction that stays pending if and only if it drops the last reference that callers hold to a pending transaction that has not operated |
| MachineTheorems.WakeUpsMatched | hw5/src/transaction.c:130-175 | waitcnt plus unconsumed posts is the number of threads blocked on a transaction; waitcnt is 0 once it is decided and posts are 0 before |
| MachineTheorems.WokenOnDecision | hw5/src/transaction.c:138-158 | a thread blocks only on an older transaction of its dependency list, and can go on as soon as that is decided |
| MachineTheorems.AbortedStaysAborted | hw5/include/transaction.h:142-147 | a transaction aborted by another client's collection is aborted in every continuation, its own commit included |
| Progress.StuckMeansDone | hw5/src/transaction.c:130-175 | if every pending transaction has asked to commit and nobody can go on, everybody is decided and no thread is inside commit |
| Progress.StepDecreases | hw5/src/transaction.c:130-175 | every step of a commit decreases an explicit measure |
| Progress.StepsBounded | hw5/src/transaction.c:130-175 | under any schedule the commit threads take no more steps than the measure of the state |
| Progress.EverybodyDecided | hw5/src/transaction.c:130-175 | from any state in which everybody has asked there is a finite schedule after which all are decided |
| Progress.EveryScheduleDecides | hw5/src/transaction.c:130-175 | every run of commit steps, in any order, stays within the measure, and it cannot be extended exactly when everybody is decided and no thread is inside commit |
| Progress.FindStep | hw5/src/transaction.c:133-158 | following the waits-for edges down from any thread inside commit ends at one that can go on |
| Progress.AbortedForCause | hw5/include/transaction.h:126-132 | commit steps abort a pending transaction only if one of its dependencies has aborted |
| BlobBooks.PutConserves | hw5/include/store.h:124-139 | through PUT, admitted or rejected, a blob's count equals the keys, versions and callers that hold it; the key and one reference on the value are consumed |
| BlobBooks.GetConserves | hw5/include/store.h:141-157 | so through GET, which takes one reference for the version and one for the caller |
| BlobBooks.GetBlobAlive | hw5/src/store.c:104-131 | the blob that GET returns has a positive count when it is found, and still has one after the replaced version has given its reference back and before the caller's is taken |
| BlobBooks.PutBlobAlive | hw5/src/store.c:51-71 | a value that PUT installs in place of a version holding the same blob is not freed by the replacement |
| Effects.PutExactly | hw5/include/store.h:124-132 | PUT: all of the above by the key's content, and the caller has one reference less to the key and one less to the value, and the same to everything else; a new entry keeps the key |
| Effects.GetExactly | hw5/include/store.h:141-149 | GET: likewise, with one reference less to the key and, if it is admitted, one more to the value read |
| BlobRuns.BlobsConserved | hw5/include/data.h:19-28 | in every state that a run reaches, a blob's count is the number of versions and keys that hold it plus the references in callers' hands |
| BlobRuns.FreedBlobStays | hw5/src/data.c:30-42 | a blob whose count has reached zero keeps it at zero however the run goes on |
| BlobRuns.StoredBlobAlive | hw5/include/data.h:19-28 | no version of any key holds a freed blob |
| BlobRuns.StoredKeyAlive | hw5/src/store.c:379-396 | every entry's key is a live blob with the key as its content |
| BlobBooks.BlobCreateKeeps | hw5/src/data.c:8-21 | creating a blob gives its caller the one reference |
| Effects.MakeExactly | hw5/src/data.c:8-21 | a created blob has count 1 and one reference in its caller's hands, nothing else changes |
| Effects.ShareExactly | hw5/src/data.c:22-28 | count and caller's references each grow by one |
| Effects.DropExactly | hw5/src/data.c:30-42 | count and caller's references each go down by one |
| Ids.IdsAgree | hw5/src/store.c:47-70 | for live transactions the check and the replacement by id do what the order of creation says |
| Ids.NextIdIsNew | hw5/src/transaction.c:53 | the next id is above that of every live transaction and of every committed one that operated |
| Transactions.Manager.constructor | hw5/src/transaction.c:9-22 | an empty circular list: the sentinel linked to itself |
| Transactions.Manager.TransCreate | hw5/src/transaction.c:33-70 | the record joins the list behind the sentinel with count 1 and the id after that of the first record; the list stays linked both ways, newest first, with exactly the live transactions |
| Transactions.Manager.NewestIsFirst | hw5/src/transaction.c:39-66 | the first record of the list is the newest transaction that has not been freed |
| Transactions.Manager.TransRef | hw5/src/transaction.c:72-78 | one more reference, nothing else |
| Transactions.Manager.TransUnref | hw5/src/transaction.c:80-100 | the counts become those of the abstract cascade: the last reference unlinks the record and gives back each of its dependency references, recursively; NULL is ignored |
| Transactions.Manager.RemoveFromTranslist | hw5/src/transaction.c:313-328 | walking the list finds the record, and unlinking it leaves a well linked list of the live transactions |
| Transactions.Manager.DeleteDependencyList | hw5/src/transaction.c:330-342 | every node gives back its reference, in list order |
| Transactions.Manager.CheckDependency | hw5/src/transaction.c:257-265 | true exactly if the transaction is in the list |
| Transactions.Manager.TransAddDependency | hw5/src/transaction.c:103-128 | a new node at the head and a reference to the target, or nothing when there is a node already |
| Transactions.Manager.TransGetStatus | hw5/src/transaction.c:198-204 | the current status |
| Transactions.Manager.Post | hw5/src/transaction.c:160-168 | one post for every registered waiter, none registered afterwards |
| Transactions.Manager.TraverseDependsList | hw5/src/transaction.c:237-255 | posts for all waiters if the record depends on the transaction, changes nothing otherwise |
| Transactions.Manager.TraverseTransList | hw5/src/transaction.c:223-236 | looking through the live transactions wakes every waiter |
| Transactions.Manager.TransAbort | hw5/include/transaction.h:141-153 | pending becomes aborted and waiters are woken; aborted stays; a reference is dropped; for a committed transaction the fatal outcome, with nothing changed |
| Transactions.Manager.Finish | hw5/include/transaction.h:125-139 | a pending transaction gets its final status and wakes its waiters, a decided one keeps it, and a reference is dropped |
| Transactions.Manager.ResumeFrom | hw5/src/transaction.c:142 | P on the semaphore of the awaited transaction consumes one post |
| Transactions.Manager.RegisterWith | hw5/src/transaction.c:139 | one more registered waiter on the awaited transaction |
| Transactions.Manager.TransCommit | hw5/src/transaction.c:137-175 | one round, from one point where the thread lets go of the mutex to the next: look at a dependency, register, resume or finish, as the machine's commit step does, which `Effects.CommitStepExactly` and `Effects.CommitConsumes` spell out; the loop around it is `Stores.Store.Commit` |
| Transactions.HeardAll | hw5/src/transaction.c:223-255 | whoever waits for a transaction is live and depends on it, so a walk over the live dependents reaches every waiter |
| VersionLinks.MapEntry.RemoveNode | hw5/src/store.c:230-241 | the unlinking: the list without that record, linked both ways |
| VersionLinks.MapEntry.CutBefore | hw5/include/store.h:44-45 | the unlinking of the aborted version and all later ones: the list ends before the record, and the rest can still be walked |
| VersionLinks.MapEntry.AddVersionEnd | hw5/src/store.c:334-355 | the record is last, links in both directions |
| VersionLinks.MapEntry.ReplaceLastVersion | hw5/src/store.c:320-327 | the exchange: the record takes the place of the last one, which is handed back |
| VersionLinks.MaxIdExactly | hw5/src/store.c:293-305 | the greatest id is the id of some creator and at least that of every one |
| VersionLinks.MapEntry.GetMaxId | hw5/src/store.c:293-305 | the result is the id of some version's creator, and none is greater |
| VersionLinks.MapEntry.GetPrecedingValue | hw5/src/store.c:398-414 | the value of the last version, NULL for an empty list; its own value when the transaction already has the last version |
| Collection.VersionDispose | hw5/src/data.c:94-100 | the creator and the blob lose the version's references, with every free that follows |
| Collection.DropDoomed | hw5/include/store.h:44-45 | the creator of a doomed version is aborted with a reference taken for the purpose, then the version's own references, to the creator and to the blob, are dropped |
| Collection.RemoveLaterList | hw5/src/store.c:247-259 | the list is cut before the first aborted version; every creator from there on is aborted, its waiters are woken, and its reference and the blob's are dropped, in list order |
| Collection.KeepLatestIs | hw5/src/store.c:198-207 | what the scan has removed and kept so far is the specification's split |
| Collection.Retire | hw5/src/store.c:216-246 | the superseded version is unlinked and disposed of: transaction and blob counts are those after the versions scanned so far |
| Collection.ScanStep | hw5/src/store.c:198-211 | one iteration of the scan keeps its bookkeeping: a newer committed version makes the previous one, which directly precedes it, redundant |
| Collection.GarbageCollection | hw5/src/store.c:194-214 | the linked list, the counts of transactions and of blobs, the statuses and the waits become exactly what the specification of a pass says, links in both directions |
| Installation.VersionCreate | hw5/src/data.c:81-93 | a version with the creator and value, unlinked, and one more reference to the creator |
| Installation.AddEarlierDependencyList | hw5/src/store.c:357-366 | dependency lists and counts become those of the specification |
| Installation.CheckTransidGreater | hw5/src/store.c:261-291 | true exactly if the id of every version's creator is at most the transaction's, equality included |
| Installation.AddVersion | hw5/src/store.c:51-70 | the list is that of the specification: replaced last version for the same id, appended otherwise; a replaced version gives its references to its creator and to its blob back |
| Stores.Store.constructor | hw5/src/store.c:9-23 | an empty table, no transactions and no blobs show the initial state, and the whole representation is fresh |
| Stores.Store.TraverseMap | hw5/src/store.c:368-377 | looking through one bucket finds the one entry of the key, or none if the table has none |
| Stores.Store.AddKey | hw5/src/store.c:379-396 | a new entry at the head of the bucket, no other entry changed |
| Stores.Store.OneEntryPerKey | hw5/include/store.h:103-112 | a search of all buckets finds no other entry of a key than the one in the bucket of its hash |
| Stores.Store.Collect | hw5/src/store.c:41-46 | the memory shows the machine's world after a collection of the key, every other list untouched |
| Stores.Store.Begin | hw5/src/store.c:37-50 | entry found or added, list collected; admitted exactly if no id of a creator in the list is greater than the transaction's |
| Stores.Store.StorePut | hw5/src/store.c:37-87 | on the memory, PUT does what `Effects.PutExactly` spells out, returns the transaction's status, and when admitted the last version record is the transaction's and holds the value; new records are fresh |
| Stores.Store.StoreGet | hw5/src/store.c:89-135 | so does GET by `Effects.GetExactly`; the value pointer is set, to the value that the protocol reads, exactly if the operation is admitted, and then the last version record is the transaction's and holds that value |
| Stores.Store.TransCreate | hw5/include/transaction.h:91-97 | a fresh pending record without dependencies, refcnt 1, and one reference in the caller's hands; the memory shows the machine's creation |
| Stores.Store.TransRef | hw5/include/transaction.h:99-106 | refcnt and the caller's references grow by one, nothing else changes |
| Stores.Store.TransUnref | hw5/include/transaction.h:108-115 | refcnt and the caller's references go down by one; no other count grows |
| Stores.Store.TransCommit | hw5/include/transaction.h:125-139 | the whole call is a run of the machine: entering, then steps of this commit until it returns the final status, or blocks on a dependency that is still pending; returning consumes one reference, blocking none; COMMITTED means that all dependencies have committed, ABORTED by the commit that one has aborted |
| Stores.Store.Commit | hw5/src/transaction.c:134-175 | so is a commit that goes on from any point in it, after being woken in particular, with the same account of references and status |
| Stores.Store.CommitStep | hw5/src/transaction.c:137-175 | one step on the memory is the machine's, as `Effects.CommitStepExactly` spells it out; refcnt and the caller's references go down by one exactly if it returns |
| Stores.Store.TransAbort | hw5/include/transaction.h:141-154 | an abort by the caller returns ABORTED, which is then the status, and consumes one reference |
| Stores.Store.BlobCreate | hw5/src/data.c:8-21 | a fresh blob with refcnt 1 and one reference in the caller's hands |
| Stores.Store.BlobRef | hw5/src/data.c:22-28 | refcnt and the caller's references to the blob grow by one, nothing else changes |
| Stores.Store.BlobUnref | hw5/src/data.c:30-42 | refcnt and the caller's references to the blob go down by one, nothing else changes |
| Stores.Store.KeyCreate | hw5/src/data.c:55-62 | making a key changes nothing in the store: the key stands for the caller's reference to the blob |
| Stores.Store.CurrentValueInMemory | hw5/include/store.h:33-35 | the version records of a key hold, as current value, the key's value after replaying the committed transactions |
| Stores.Store.RefcntInMemory | hw5/include/transaction.h:74-79 | a refcnt field counts versions, dependency nodes and callers, and the record is on the transaction list exactly while it is not zero |
| Stores.Store.BlobRefcntInMemory | hw5/include/data.h:19-28 | the refcnt field of a blob counts the versions, the keys of entries and the callers that hold it |
| Stores.Store.TransListDescends | hw5/src/transaction.c:33-70 | the transaction list is strictly descending by id |
| Replays.Replay | hw5/include/store.h:52-64 | every run of the machine, of any length, can be carried out on the memory call by call from an empty store, and ends with the memory showing the run's last state |
| StoreFacts.OtherKeysUntouched | hw5/src/store.c:368-396 | an operation on one key leaves the list of every other key alone, in the same bucket too |
| StoreFacts.AdmittedById | hw5/src/store.c:261-291 | the comparison of ids admits exactly the operations that the protocol admits |
| Data.HashStopsAtZero | hw5/src/data.c:50-54 | the scan finds the first zero byte, of the content or the one appended to it, and the hash is 0 to 7 |
| Data.HashIsLength | hw5/src/data.c:50-54 | the hash is the number of bytes before the first zero byte, or of all bytes, modulo 8 |
| Data.KeyCompareZero | hw5/src/data.c:44-79 | keys compare as 0 exactly when sizes and all bytes agree |
| Data.EmbeddedZero | hw5/src/data.c:44-79 | keys that differ only after a zero byte share a hash and compare unequal |
| Data.Blob.constructor | hw5/src/data.c:8-21 | content copied, zero byte appended to the prefix, one reference |
| Data.Blob.Ref | hw5/src/data.c:22-28 | one more reference |
| Data.Blob.Unref | hw5/src/data.c:30-42 | one fewer; freed exactly at the last |
| Data.Blob.ComputeHash | hw5/src/data.c:50-54 | the scan of the prefix gives the number of bytes before the first zero byte, modulo 8 |
| Data.StoredKey.constructor | hw5/src/data.c:55-62 | the key's hash is that number for its blob's content, and the key inherits the caller's reference |
| Data.StoredKey.Dispose | hw5/src/data.c:64-70 | the inherited reference is given back |
| Data.StoredKey.Compare | hw5/src/data.c:72-79 | 0 exactly for equal contents |
| BlobPools.Pool.BlobRef | hw5/src/data.c:22-28 | one more reference on the record, none for NULL |
| BlobPools.Pool.BlobUnref | hw5/src/data.c:30-42 | one fewer reference on the record, no other count changed |
| BlobPools.Pool.KeyDispose | hw5/src/data.c:64-70 | disposing of a key gives its blob's reference back |
| Rio.ReadN | hw5/src/csapp.c:755-777 | for every script of short reads and interruptions, the first n bytes, or all up to the end of the stream, are stored in order and nothing else in the buffer changes; it fails only if a read fails; errno is what the calls made have left |
| Rio.StoredExactly | hw5/src/csapp.c:755-777 | what "stored" means in the contracts of the reads, byte by byte: the bytes taken are at the beginning of the buffer, the rest of it is as before, and the stream goes on after them |
| Rio.PatchExactly | hw5/src/csapp.c:831-836 | writing at a position of the buffer changes exactly the bytes there |
| Rio.StoredLineExactly | hw5/src/csapp.c:878-902 | the same for a line, with the zero byte after it |
| Rio.ErrnoTells | hw5/src/csapp.c:762-767 | after calls the last of which has failed errno is that failure's code; after calls none of which has failed it is EINTR if one was interrupted, and otherwise what it was |
| Rio.WriteN | hw5/src/csapp.c:782-800 | for every script of short writes, interruptions and calls that write nothing, exactly the n bytes are appended in order; it fails only if a write fails |
| Rio.Reader.constructor | hw5/src/csapp.c:844-850 | an empty internal buffer over the descriptor |
| Rio.Reader.Refill | hw5/src/csapp.c:814-829 | refilling keeps delivered bytes plus unread bytes equal to the source |
| Rio.Reader.Read | hw5/src/csapp.c:812-839 | hands out a non-empty part of what is buffered, never more than asked for |
| Rio.Reader.ReadNB | hw5/src/csapp.c:856-874 | the next n bytes of the stream, or all up to its end, in order, for every chunking |
| Rio.Reader.ReadLineB | hw5/src/csapp.c:878-902 | the shortest prefix that ends at a newline, has maxlen-1 bytes or reaches the end of the stream, zero-terminated inside the buffer; when a read fails, the bytes taken are those stored, in order, and none of them is lost from the stream |
| Rio.AskAll | hw5/src/csapp.c:856-902 | any interleaving of block and line requests is answered with the consecutive pieces of the stream that the requests call for |
| Rio.AnswersMakeStream | hw5/src/csapp.c:856-902 | those answers, joined, and what is left are the stream: nothing is lost, repeated or reordered |
| Rio.LineLengthIsShortest | hw5/src/csapp.c:878-902 | the length of that prefix meets the stop condition, byte 10 being the newline, and no shorter one does |
| Packets.WireRoundTrip | hw5/src/protocol.c:5-48 | parsing the wire form of a header gives its fields |
| Packets.WireBytes | hw5/include/protocol.h:66-73 | type, status, null flag and padding in the first four bytes, then size, seconds and nanoseconds, each with the most significant byte first |
| Packets.FieldBytes | hw5/include/protocol.h:66-73 | the same fields in a host's structure: little-endian words weigh the first byte least, big-endian ones the last |
| Packets.ConvertedIsWire | hw5/src/protocol.c:6-12 | swapping the fields of a header in memory, on a host of either byte order, gives its wire form |
| Packets.ConvertedIsParsed | hw5/src/protocol.c:31-36 | swapping the fields of a received header gives, on a host of either byte order, the fields that were sent |
| Packets.SendPacket | hw5/src/protocol.c:5-22 | writes the wire form and then the payload of `size` bytes; fails only if a write fails, and then a proper beginning of the two has been written |
| Packets.ReceivePacket | hw5/src/protocol.c:24-48 | reads a header and a payload, with the branches of the original for the end of the stream; a whole message always gives 0, and what a result of 0 reports was sent exactly if the message was whole; after -1 errno indicates an error exactly if a read has failed, and at the end of the stream it is what it was, or EINTR |
| Packets.ReceiveComplete | hw5/src/protocol.c:24-48 | a whole message at the front of the stream is received as it was sent and nothing after it is consumed |
| Packets.ReceptionExact | hw5/include/protocol.h:101-102 | reception is successful in the sense of the header, a message that was sent received as it was sent, if and only if the stream holds a whole header and as many bytes after it as the header says |
| Packets.HeaderCutShort | hw5/src/protocol.c:26-29 | one byte before the end of the stream is accepted as a packet that nobody sent |
| Packets.PayloadCutShort | hw5/src/protocol.c:41-44 | one byte of a two-byte payload is accepted as the payload |
| Packets.RejectedExactly | hw5/src/protocol.c:26-44 | reception fails without a failing read exactly if nothing is left, or at most a header is left and its size field, with what the structure held before for missing bytes, is not zero |
| Packets.EndWithoutErrno | hw5/include/protocol.h:101-102 | on a connection that the peer has closed reception gives -1 with errno still 0 |
| Packets.Converse | hw5/src/protocol.c:5-48 | any sequence of messages, sent and then received under any short writes, short reads and interruptions and between hosts of any byte orders, arrives unchanged and in order with nothing left over |

## Left out

- Dependency lists are sequences of record references rather than linked nodes: a node never changes after it is created, so only its separate allocation is lost.
- Blocking itself: `Stores.Store.Commit` returns at a wait that has no post, and the caller goes on from there later; other threads' calls come in between. Inside one call of it no other thread runs, whereas `Stores.Store.CommitStep` and `Machine.RunsTo` allow every interleaving.
- errno on the writing side: only whether it is EINTR when a write transfers nothing. A write that returns 0 makes rio_writen give -1 with errno as an earlier call has left it.
- Freed records stay in the ghost sequence of all records ever created, with count 0, so reuse of their storage is not modelled.
- Mutexes, memory-model races and failing allocations: each lock-protected section is atomic and allocation succeeds.
- The 32-bit width of ids, counts and waitcnt: they are unbounded here, so nothing is said about runs long enough to overflow them.
- The NULL key check of store_put and store_get: the header demands a key.
- main.c, server.c and client_registry.c: option parsing, signals, sockets, threads and the request loop; the model only takes from them that a client drives one transaction and aborts it on disconnection.
- store_show, trans_show, trans_show_all and the debug output.
- store_fini, trans_fini and delete_translist: teardown at exit.
- check_depends, traverse_store, traverse_mapentry, traverse_versions and check_head_in_versions: not on the path of any operation.
- The rest of csapp.c: process, signal, file, socket and thread wrappers, and the Sio output helpers.
- The meaning of packet types, statuses and timestamps: fields are carried unchanged.
