# A verified model of tgcli's core

tgcli is a Telegram command-line client with a per-account daemon. This project models the parts of it
whose correctness is hardest to see by reading, and proves what they promise. It is written in Dafny 4.11;
`dafny verify dfyconfig.toml` checks all of it.

**The configuration store.** A change of `config.toml` is a transaction of single system calls: a staged
replacement, a pending marker, an exchange, a committed marker, cleanup. `ConfigDisk` is the directory with
everything a power loss may leave of it; `ConfigRecovery` is the decision recovery makes on the files it
finds; `ConfigStore` is the store, in which every call may fail and a crash may fall between any two calls,
inside recovery as well. Whatever happens, recovery ends with the old document if the commit rename is not on the
disk it finds and with the new one if it is; it refuses in exactly two kinds of crash state and then changes
nothing; and the durably committed documents form one chain in which each is a mutation of the one before. Every
run is recorded moment by moment, neighbouring moments being one system call or one power loss apart, and each
step of a mutation is durable before the next begins. What goes wrong outside is counted, and a call during which
nothing does returns exactly what the document, the marker and the caller's identity call for. `ConfigDocument`
is the document itself with its schema and its mutations, and `ConfigSystem` puts the two together: over any run,
no account ever gains the right to write. `TransactionMarker` is the marker's text.

**Cancellation.** `ConditionWait` and `Callbacks` are step machines over the mutexes of the stop state, the
callback nodes and the condition, with waits that have a deadline and stops requested with the caller's lock
held. Every run keeps an invariant from which follow: no wakeup is lost, a wait ends only when its predicate or
the stop flag is true or its deadline has passed, no thread blocks with the condition's mutex held, nothing
deadlocks, a callback body runs at most once, a waiter whose deadline has passed never sleeps again, and a
destructor waits: when it returns, the body is not running, then or later, unless it returns inside that body.

**The daemon lock.** `DaemonOwnership` is acquisition and inspection by any number of processes that die at
any step: there is one owner, and what an inspection reports is exactly what its two samples and its reads call
for, in every run. `LockRecord` is the identity record, in bijection with its bytes, no proper prefix of which
parses.

**Restart.** `Restart` is the client's `daemon restart` against an outside that changes between any two looks;
success and every kind of failure have a reason in what was seen.

**Sequential algorithms.** UTF-8 validation against RFC 3629, cutting a text into literals, canonical JSON
against a reader of RFC 8259, and leftmost-longest redaction. Streaming SHA-256 is proved against the definition
in FIPS 180-4 (`Sha256Spec`), whose words are in turn tied to bits and numbers (`Sha256Bits`) and whose constants
to the roots of the first primes (`Sha256Constants`). The removal of Doxygen comments from a header is
idempotent, and `HeaderTokens` says what it has to do without mentioning how: every line divides into comments,
literals, raw strings and single characters in one way only, and that division decides everything.

Objects that the program updates in place are classes here, loops are loops, and both are proved against
functions whose own properties are proved as lemmas. Protocols are state machines whose steps are the
program's single locked sections or system calls, and what is said of them is said of every run.

Where the model says something the code's own words do not:

- The comments of the store call recovery exhaustive. It is, under directory updates that reach the disk in
  order. If an unlink may reach the disk before the commit rename, recovery can refuse with the new document in
  place and the old one gone (`ConfigStore.LostRollbackCopy`). `ConfigStore.ReorderedCleanupIsSafeIff` says
  exactly when recovery then still ends well after the first step of a committed cleanup: when the commit rename
  is already durable, when there was no old document, or when it equals the new one.
- A document that is read as committed can still be taken back, even if directory updates reach the disk in order.
  The cleanup that recovery runs on a committed transaction syncs nothing before its unlinks, so the marker can be
  gone while the commit rename is not durable. `verify_write_grant` may then confirm a grant, and a power loss
  bring the exchange without the rename, which recovery rolls back: `ConfigStore.CommitTakenBack`, as a run
  `ConfigStore.CommitTakenBackIsARun`. `ConfigStore.LastingIffNotTorn` says exactly when what recovery would end
  with now is what it ends with after any power loss: unless the commit rename of a transaction that changes the
  document is in some directory images and not in others.
- A mutation of a valid document yields a valid one exactly when the credentials it is given are usable;
  `apply_mutation` itself does not check them, the parse of the result does.
- A restart cannot fail with "retained the old owner identity" once the old target is gone: the check is never
  the one that fails.
- Redaction leaves no spelling of a registered Telegram link in its output. Of an arbitrary registered string
  this holds, whatever else is registered, exactly if the string cannot be laid over the replacement text so that
  both agree where they meet: `InviteRedaction.ErasedIffNoOverlap`. The string `invite` fails all by itself.

## Model

| member | source | states |
|---|---|---|
| TransactionMarker.GetLineSplits | src/common/config.cpp:759-762 | a terminated line is read up to its newline and the rest is left |
| TransactionMarker.GetLineUnterminated | src/common/config.cpp:759-762 | a last line without newline is still read |
| TransactionMarker.PrefixParses | src/common/config.cpp:754-786 | of all prefixes of a marker's text exactly the whole text and the text without its final newline parse, and both give back state and digests |
| TransactionMarker.ParsesIff | src/common/config.cpp:754-786 | exactly which bytes parse as a marker: a state name, an old digest that is empty or 64 characters and a new one of 64, each on its line, the last newline optional, and to which record |
| ConfigDisk.ReadHolds | src/common/config.cpp:681-721 | a file whose contents are certain reads as those contents, an absent one as missing |
| ConfigRecovery.MarkerText | src/common/config.cpp:723-740 | a marker cut short anywhere parses only if at most its last newline is missing |
| ConfigRecovery.DecidesNotExchanged | src/common/config.cpp:908-989 | before the exchange, recovery refuses if and only if the marker is incomplete or the rollback copy is gone, and otherwise keeps the old document |
| ConfigRecovery.DecidesExchanged | src/common/config.cpp:952-983 | between exchange and commit, recovery puts the old document back, or removes a first one |
| ConfigRecovery.DecidesCommitted | src/common/config.cpp:941-950 | after the commit, recovery only finishes the cleanup and the new document stays |
| ConfigRecovery.OldStaysReachable | src/common/config.cpp:1526-1633 | until the commit the old bytes are in config.toml or in the replacement |
| ConfigRecovery.RecoveryNeverGuesses | src/common/config.cpp:908-989 | on any directory at all, recovery goes ahead if and only if there is no marker or the files have the digests the marker names, and it ends with the document whose digest the marker names |
| ConfigStore.RecoveryIsExact | src/common/config.cpp:908-989 | at any safe moment: refusal if and only if stuck, with the last committed document in place; the outcome is the old document if the commit rename is not on this disk and the new one if it is |
| ConfigStore.PowerLossIsSafe | src/common/config.cpp:1514-1638 | whatever image and contents a power loss leaves are as safe as what was there |
| ConfigStore.MarkerTells | src/common/config.cpp:908-989 | while there is a marker, the commit has happened if and only if the marker reads as the committed one |
| ConfigStore.CommitTakenBack | src/common/config.cpp:941-950 | after the commit rename and the three unlinks of recovery's cleanup, none of them synced, the new document is read with no marker present, and a power loss may leave a disk that recovery takes back to the old one |
| ConfigStore.CommitTakenBackIsARun | src/common/config.cpp:860-868 | every run up to the written committed marker can go on like that, one system call at a time |
| ConfigStore.LastingIffNotTorn | src/common/config.cpp:941-950 | at any safe moment, the document recovery would end with now is the one it ends with after every power loss if and only if the commit rename of a changing transaction is not in some images only |
| ConfigStore.TornIsUnsynced | src/common/config.cpp:1629-1638 | that takes a commit rename after which the directory was not synced |
| ConfigStore.CommittedForGoodIff | src/common/config.cpp:1629-1638 | every power loss leaves the new document in place and committed if and only if every directory image is committed |
| ConfigStore.MarkerAtRest | src/common/config.cpp:860-868 | with no marker in the directory, config.toml is a document whose commit rename is in what is seen, and it outlasts every power loss if and only if that rename is not in some images only |
| ConfigStore.ClosingIsSafe | src/common/config.cpp:860-868 | once the marker is gone and the directory synced, the history gains the committed document or nothing |
| ConfigStore.UnlinkIsSafe | src/common/config.cpp:860-868 | every single unlink of a cleanup keeps every image recoverable |
| ConfigStore.SwapBackIsSafe | src/common/config.cpp:958-963 | the exchange that rolls back is only decided before the commit, and leaves the old document in place |
| ConfigStore.RemoveConfigIsSafe | src/common/config.cpp:971-976 | the removal of a first document is only decided before the commit |
| ConfigStore.CreateIsSafe | src/common/config.cpp:725-731 | creating a file that decides nothing, or the empty pending marker, keeps every image recoverable |
| ConfigStore.RewriteIsSafe | src/common/config.cpp:610-624 | partial contents of such a file, synced or not, keep every image recoverable |
| ConfigStore.BeginningIsSafe | src/common/config.cpp:1514-1529 | a transaction may begin once the replacement is staged |
| ConfigStore.SwappingIsSafe | src/common/config.cpp:1557-1561 | the exchange, or the first-run rename, under a durable pending marker is safe |
| ConfigStore.RollingBackIsSafe | src/common/config.cpp:1574-1580 | undoing the exchange is safe and leaves the old document |
| ConfigStore.RenamingMarkerIsSafe | src/common/config.cpp:1629-1633 | renaming the committed marker over the pending one is safe and commits |
| ConfigStore.LostRollbackCopy | src/common/config.cpp:952-983 | with a complete pending marker, the new document in place and the rollback copy gone, recovery refuses although the old document is lost |
| ConfigStore.ReorderedCleanupIsSafeIff | src/common/config.cpp:941-950 | if the first unlink of a committed cleanup may overtake the commit rename, recovery ends with one of the two documents from whatever a power loss leaves if and only if the commit rename is durable in every image, or there was no old document, or it equals the new one |
| ConfigStore.Store.constructor | src/common/config.cpp:1316-1340 | a store starts on any directory without a transaction, its history being the document found |
| ConfigStore.Store.Trouble | src/common/config.cpp:1341-1372 | whether something goes wrong outside is open, and it is counted |
| ConfigStore.Store.Attempt | src/common/config.cpp:742-744 | one system call takes effect or changes nothing; the run gains exactly that step, safe like all before it, and the history changes only with the commit rename and the settling sync |
| ConfigStore.Store.UnlinkForCleanup | src/common/config.cpp:742-744 | removes one entry or fails with nothing changed |
| ConfigStore.Store.Settle | src/common/config.cpp:863-867 | a directory sync after the last unlink closes the transaction |
| ConfigStore.Store.CleanupTransaction | src/common/config.cpp:860-868 | removes the three transaction entries, keeps every byte of every file, and closes the transaction only if all steps worked; at no moment is the marker gone before the files it vouches for; without trouble it succeeds |
| ConfigStore.Store.RemoveOrphanFiles | src/common/config.cpp:912-921 | with no marker, removes what an earlier crash left and keeps the document |
| ConfigStore.Store.RestoreConfig | src/common/config.cpp:952-983 | carries the decision out only before the commit and then leaves the old document |
| ConfigStore.Store.SyncNow | src/common/config.cpp:984-987 | makes the newest directory image the only one |
| ConfigStore.Store.UndoPending | src/common/config.cpp:951-988 | config.toml is back, durably and with the marker still there, before the cleanup begins, and it has the identity the decision calls for |
| ConfigStore.Store.RecoverTransaction | src/common/config.cpp:908-989 | recovered: the history is closed as committed or not, and config.toml has the identity the decision calls for; refused: nothing at all changed and the transaction is stuck; without trouble it refuses if and only if stuck and recovers otherwise |
| ConfigStore.Store.CreateFile | src/common/config.cpp:725-731 | creates an empty file no other name denotes |
| ConfigStore.Store.WriteUpTo | src/common/config.cpp:613-622 | one partial write leaves a longer prefix or nothing changed |
| ConfigStore.Store.WriteAll | src/common/config.cpp:610-624 | any sequence of partial writes ends with all bytes or fails with a prefix |
| ConfigStore.Store.SyncContents | src/common/config.cpp:734-736 | the contents seen are the only ones a crash can leave |
| ConfigStore.Store.WriteFile | src/common/config.cpp:723-740 | a new file holds exactly its bytes, durably, and no other file changed |
| ConfigStore.Store.Begin | src/common/config.cpp:1525-1529 | from here on a crash may leave a marker |
| ConfigStore.Store.Prepare | src/common/config.cpp:1526-1534 | the pending marker is durable and both documents are in place, or the mutation has failed |
| ConfigStore.Store.SwapIn | src/common/config.cpp:1557-1568 | the documents have traded places, or nothing changed |
| ConfigStore.Store.RollBack | src/common/config.cpp:1573-1590 | a successful rollback leaves the old document, in the only directory image |
| ConfigStore.Store.Finalize | src/common/config.cpp:1628-1638 | success means that the committed marker was durable before the cleanup, and that all is committed, durable and cleaned up; failure adds no second link; without trouble it succeeds |
| ConfigStore.Store.Publish | src/common/config.cpp:1526-1638 | from marker to cleanup: the history gains at most the one link of this mutation, and exactly it if applied; applied means that marker, exchange and commit were each durable before the next began; without trouble it is applied |
| ConfigStore.Store.DiscardTemporary | src/common/config.cpp:1448-1448 | dropping the temporary file changes no history |
| ConfigStore.Store.Stage | src/common/config.cpp:1424-1524 | the replacement holds exactly the planned bytes, or the call ends with the history unchanged; a conflict means that the identity is another one, and without trouble nothing else ends it |
| ConfigStore.Store.Edit | src/common/config.cpp:1378-1648 | behind recovery: only for a caller whose identity names the head; Conflict only if the identity is another one; without trouble the status is what document, mutation and identity call for |
| ConfigStore.Store.Mutate | src/common/config.cpp:1316-1648 | every moment it passes through is safe; it adds nothing but its own mutation of the head its recovery left, only for a caller whose identity names that head; Conflict, Invalid, PreconditionFailed, TimedOut and Cancelled add no link; Applied means durable; Conflict means that the identity is another one; without trouble the status is exactly the one that names, marker, document, mutation and identity call for |
| ConfigStore.Store.VerifyWriteGrant | src/common/config.cpp:1193-1271 | each status if and only if: Unavailable for an interruption, a failed call or a marker; NotValid for a bad name or document; Changed for another identity; Matched or Denied as the document says; what it speaks of is the document recovery would end with, and outlasts every power loss if and only if its commit rename is not in some images only |
| ConfigStore.Store.Kill | src/common/config.cpp:1316-1648 | a process killed after any of its steps leaves a safe store, with the history of that step |
| ConfigStore.Store.LosePower | src/common/config.cpp:1316-1648 | so does a power loss, for everything it may leave |
| ConfigDocument.AcceptsIff | src/common/config.cpp:355-402 | a document is accepted if and only if accounts is a table, every entry is, and the default names one of them |
| ConfigDocument.AccountIff | src/common/config.cpp:248-353 | an account is read if and only if its name is one and each key may hold what it holds, with no credential beside its command; and the settings read are the only ones that say what the table says |
| ConfigDocument.DocumentIff | src/common/config.cpp:355-402 | a document is read if and only if each account is and the default, if there is one, is an account; and it is read as that |
| ConfigDocument.Document.RemoveAccount | src/common/config.cpp:1023-1055 | the default is reassigned, erased or kept as the branch of the removal says, or the document is untouched |
| ConfigDocument.Document.ApplyMutation | src/common/config.cpp:994-1097 | the edited document is the specified one, whose success, default and target table MutationSucceedsIff, DefaultIs and TargetTableIs give exactly; a refused mutation leaves the accounts as they were |
| ConfigDocument.MutationSucceedsIff | src/common/config.cpp:994-1097 | a mutation is refused if and only if the account it names is there or missing against its kind, the default would be left to nobody or is reassigned for no reason, or the credentials do not come as a pair |
| ConfigDocument.DefaultIs | src/common/config.cpp:1002-1077 | the default after every successful mutation, kind by kind |
| ConfigDocument.TargetTableIs | src/common/config.cpp:1002-1094 | the account a mutation is about, field by field: no grant when added, both credentials when given, the commands gone when replaced, everything else as it was |
| ConfigDocument.OtherAccountsStay | src/common/config.cpp:994-1097 | the accounts change by the one the mutation is about only and all others keep their whole table |
| ConfigDocument.OtherKeysStay | src/common/config.cpp:994-1097 | every other top-level key keeps its value, whatever kind of value it is |
| ConfigDocument.MutationKeepsGrants | src/common/config.cpp:994-1097 | a surviving account keeps its allow_write, a new one has none |
| ConfigDocument.GrantsNeverGrow | src/common/config.cpp:994-1097 | whatever mutation is asked for, nobody can write in its result who could not write before |
| ConfigDocument.MutationKeepsDocumentValid | src/common/config.cpp:1411-1422 | a successful mutation of an accepted document is accepted if and only if the credentials it writes, if any, are usable |
| ConfigDocument.DefaultSurvives | src/common/config.cpp:396-400 | after every successful mutation the default still names an account |
| ConfigDocument.DefaultChangesOnlyWhenAsked | src/common/config.cpp:994-1097 | the default changes only by a use, to fill a missing one or because its account goes, and only to an account the call names |
| ConfigDocument.FreshEntryOk | src/common/config.cpp:1056-1077 | a new main account parses if and only if its credentials are usable |
| ConfigDocument.ReplacedEntryOk | src/common/config.cpp:1078-1094 | replaced credentials parse if and only if they are usable, whatever commands stood there before |
| ConfigDocument.NamedEntry | src/common/config.cpp:269-353 | the one table a mutation writes is valid under the same condition |
| ConfigSystem.Serialize | src/common/config.cpp:594-608 | the written text ends in a newline |
| ConfigSystem.EnvironmentOk | src/common/config.cpp:1411-1422 | the program's own document layer is one the store may be used with |
| ConfigSystem.PlanSucceedsIff | src/common/config.cpp:1394-1422 | there is something to write if and only if the document is accepted, the mutation applies to it, the credentials it writes are usable and the result fits |
| ConfigSystem.LinkIsMutation | src/common/config.cpp:1394-1422 | each committed document is apply_mutation of its immediate predecessor, both accepted |
| ConfigSystem.LinkKeepsGrants | src/common/config.cpp:1394-1422 | who may write after a link could write before it |
| ConfigSystem.GrantsOnlyShrink | src/common/config.cpp:1316-1648 | over every run with any crashes, who may write later could write in every earlier committed document |
| ConfigSystem.SafeGrantIsOriginal | src/common/config.cpp:1193-1271 | a grant read from a safe disk without a marker was in the document the history starts with |
| ConfigSystem.MatchedGrantIsOriginal | src/common/config.cpp:1193-1271 | in every moment a store has gone through, mutations, failures and crashes included, a grant read with no marker present was in the document the store started with |
| ConditionWait.KeepsLocks | src/common/cancellation.hpp:282-340 | after every step each mutex is held by exactly the thread whose position says so |
| ConditionWait.BumpFrame | src/common/cancellation.hpp:274-280 | a generation bump that is to come stays to come until it happens |
| ConditionWait.WakeFrame | src/common/cancellation.hpp:274-280 | so does a wakeup |
| ConditionWait.SatisfyingOwes | src/common/cancellation.hpp:263-264 | a change that satisfies a waiter owes a notification |
| ConditionWait.KeepsActor | src/common/cancellation.hpp:282-340 | a waiter falls asleep only unsatisfied or with a notification to come |
| ConditionWait.KeepsOtherWaiter | src/common/cancellation.hpp:282-340 | no step of another thread strands a waiter on its way to sleep |
| ConditionWait.KeepsInv | src/common/cancellation.hpp:274-366 | every step of every thread keeps the invariant |
| ConditionWait.InvAlways | src/common/cancellation.hpp:274-366 | the invariant holds in every reachable state |
| ConditionWait.NoLostWakeup | src/common/cancellation.hpp:282-340 | in every reachable state, a sleeper whose predicate or stop flag is true has a notification still to come |
| ConditionWait.WaitEndsRightfully | src/common/cancellation.hpp:356-382 | in every run a wait, with or without deadline, returns with the caller's lock held, its wake callback unregistered and quiet, and the value of the predicate; false only after a stop request or by the deadline |
| ConditionWait.LateWaiterReturns | src/common/cancellation.hpp:309-340 | in every run, a waiter its deadline has woken never sleeps again: each step of its own, whatever the others do, brings it one step nearer to its return |
| ConditionWait.LateRegistrationNotifies | src/common/cancellation.hpp:74-82 | in every run, a waiter that registers after the stop does not get past it before the generation has been bumped and all sleepers notified |
| ConditionWait.StaysQuiet | src/common/cancellation.hpp:356-366 | no step starts the wake callback of a wait that has returned |
| ConditionWait.NeverBlocksWithCondition | src/common/cancellation.hpp:292-334 | no thread waits for the caller's lock while it holds the condition's mutex |
| ConditionWait.NoDeadlock | src/common/cancellation.hpp:356-366 | while any thread is inside an operation, some thread can go on |
| ConditionWait.SomebodyIsBusy | src/common/cancellation.hpp:274-280 | a satisfied sleeper has some thread at work |
| ConditionWait.RestIsRightful | src/common/cancellation.hpp:282-307 | when every thread has come to rest, only waiters sleep whose condition is false |
| Callbacks.KeepsNodes | src/common/cancellation.hpp:19-60 | every step keeps each node's fields consistent |
| Callbacks.KeepsCalls | src/common/cancellation.hpp:62-113 | every step keeps each call in progress where the fields say it stands |
| Callbacks.KeepsApart | src/common/cancellation.hpp:89-105 | two calls never compete for one callback |
| Callbacks.KeepsPending | src/common/cancellation.hpp:84-105 | an invocation that is to come is never forgotten |
| Callbacks.KeepsInv | src/common/cancellation.hpp:19-200 | every step keeps the invariant |
| Callbacks.InvAlways | src/common/cancellation.hpp:19-200 | the invariant holds in every reachable state |
| Callbacks.RunsAtMostOnce | src/common/cancellation.hpp:23-43 | however registration, stop and destruction race, a body starts at most once |
| Callbacks.EveryLiveCallbackRan | src/common/cancellation.hpp:89-105 | once a stop has been dispatched, every callback still alive has run, exactly once |
| Callbacks.StaysDestroyed | src/common/cancellation.hpp:45-51 | no step starts the body of a destroyed callback |
| Callbacks.QuietAfterDestruction | src/common/cancellation.hpp:175-195 | after destruction the source has forgotten the callback, its body never starts again, and a body still running runs on the very thread that destroyed it |
| Callbacks.DestructorEnds | src/common/cancellation.hpp:45-51 | the step with which a destructor returns leaves the callback destroyed by that thread and does not touch the body |
| Callbacks.StaysEnded | src/common/cancellation.hpp:45-51 | in every run, a destroyed callback whose body is not running is never run again |
| Callbacks.DestructorWaits | src/common/cancellation.hpp:45-51 | in every run, when a destructor returns on a thread that is not executing the body, the body is not running then or at any later time; it returns with the body running if and only if it was called from that body |
| Callbacks.DestructionCannotDeadlock | src/common/cancellation.hpp:45-51 | a destructor that waits waits for the dispatching thread, which is never itself the one waiting |
| Decimal.ValueOfText | src/common/daemon_lock.cpp:152-163 | decimal text gives back its number |
| Decimal.TextOfValue | src/common/daemon_lock.cpp:152-163 | every canonical text is the text of its number |
| Decimal.LengthBound | src/common/daemon_lock.cpp:152-163 | a bounded number has a bounded number of digits |
| LockRecord.FormatThenParse | src/common/daemon_lock.cpp:196-232 | the record of a valid identity parses to that identity |
| LockRecord.ParseThenFormat | src/common/daemon_lock.cpp:196-232 | every accepted record is byte for byte the record of a valid identity |
| LockRecord.StartIff | src/common/daemon_lock.cpp:165-194 | the process start tokens that are accepted, written out for both platforms: canonical decimals within their bounds |
| LockRecord.TruncatedNeverParses | src/common/daemon_lock.cpp:422-445 | no proper prefix of a record parses |
| LockRecord.RecordFits | src/common/daemon_lock.cpp:234-260 | every valid record is within the size the reader accepts |
| DaemonOwnership.OwnerIsPublished | src/common/daemon_lock.cpp:543-592 | while the bootstrap lock is free, an owner's complete record is in the file |
| DaemonOwnership.KeepsProcess | src/common/daemon_lock.cpp:543-592 | every step of acquirers, inspectors and dying processes keeps each process consistent with locks and file |
| DaemonOwnership.KeepsWatch | src/common/daemon_lock.cpp:332-414 | what an inspector has read stays true of the file while it holds the shared lock |
| DaemonOwnership.InvAlways | src/common/daemon_lock.cpp:543-592 | the invariant holds in every reachable state, whatever lock file was there before |
| DaemonOwnership.SingleOwner | src/common/daemon_lock.cpp:543-592 | at most one process holds the lock, and its own record is in the file |
| DaemonOwnership.InspectionIsSound | src/common/daemon_lock.cpp:332-414 | Held only with the complete identity published by the process holding the lock at the second sample, Released only if nobody held it then |
| DaemonOwnership.ClassifyIs | src/common/daemon_lock.cpp:451-478 | an observation is unstable if and only if owner or record changed between the samples, and stable if and only if beyond that record, owner and live process are one |
| DaemonOwnership.InspectedStays | src/common/daemon_lock.cpp:332-414 | while someone inspects, nobody writes the file and nobody becomes the owner |
| DaemonOwnership.ReadableIff | src/common/daemon_lock.cpp:234-260 | a file is readable if and only if it holds the record of some valid identity |
| DaemonOwnership.InspectionIsExact | src/common/daemon_lock.cpp:332-414 | in every run, whatever falls between its steps and whichever reads fail: Transition if and only if the owner left between the samples or the file could be read once only; Held if and only if there was an owner at the second sample and every read worked, with its identity; Released if and only if nobody owned the lock, both reads worked and the file holds a record; Invalid otherwise |
| DaemonOwnership.LivePidsAlwaysUnique | src/common/daemon_lock.cpp:357-363 | in every run no two live processes have the same pid, so a lookup by pid finds the process meant |
| DaemonOwnership.OwnerShows | src/common/daemon_lock.cpp:332-414 | with the bootstrap lock free, an owner's lock, record and live start are what an inspector looks for |
| DaemonOwnership.OwnerStaysPut | src/common/daemon_lock.cpp:543-592 | while it owns the lock and someone inspects, no step changes an owner's pid, start or identity |
| DaemonOwnership.StableOwnerIsReported | src/common/daemon_lock.cpp:332-414 | in every run, an inspection without a failing read, during which one process owns the lock, ends with Held and that process's identity, however other steps fall between its own |
| DaemonOwnership.FreeLockIsReported | src/common/daemon_lock.cpp:332-414 | in every run, an inspection without a failing read of a lock nobody owns ends with Released if the file holds a record and with Invalid if not |
| Restart.LaterIsTransitive | src/common/paths.cpp:288-301 | identities that are never reused compose over time |
| Restart.GoneForGood | src/cli/client.cpp:983-1013 | what is gone stays gone |
| Restart.ThereAllAlong | src/cli/client.cpp:899-931 | what was seen before and is there afterwards was there in between |
| Restart.FactsKept | src/cli/client.cpp:983-1002 | each shutdown fact, once observed, holds from then on |
| Restart.NewOwnerIsNew | src/cli/client.cpp:1555-1575 | an owner in place is none of the processes that are gone |
| Restart.ReplacementIsNew | src/cli/client.cpp:1555-1575 | a reported replacement differs in pid or start from the owner of every target frozen before |
| Restart.Client.constructor | src/cli/client.cpp:1719-1725 | a restart starts with nothing frozen, spawned or greeted |
| Restart.Client.Sleep | src/cli/client.cpp:362-371 | waiting either uses up a retry or ends the wait |
| Restart.Client.InspectOwner | src/common/daemon_lock.cpp:738-788 | a reported owner, or a reported release, was true when sampled |
| Restart.Client.OwnerReleased | src/common/daemon_lock.cpp:508-541 | released only when the lock is not held by the frozen process instance, although pid and start are looked up one after the other; not released only if its pid was seen to own the lock |
| Restart.Client.LookForShutdown | src/cli/client.cpp:983-1013 | one look at each fact not observed yet; if one is still missing without a failed look, part of the frozen surface was seen in place |
| Restart.Client.WaitForOldDaemonShutdown | src/cli/client.cpp:983-1013 | success only with the lock released and both sockets replaced or removed, all at once true on return; failure only after a failed look, or with no retry left and part of the surface still seen in place |
| Restart.Client.StopVerifiedDaemon | src/cli/client.cpp:1124-1144 | every successful way to stop ends with those three facts; without a usable handshake it fails; otherwise it fails only if something went wrong |
| Restart.Client.InspectSurfaceFiles | src/cli/client.cpp:760-831 | absent if and only if the lock was free and both paths empty when looked at, starting if and only if the lock was not and they were, running if and only if the lock was held and both were occupied, and then the target is what was seen |
| Restart.Client.ObserveFrozenTarget | src/cli/client.cpp:835-853 | a change that is reported is one, and without one the three looks saw the three frozen identities |
| Restart.Client.OpenFrozenSession | src/cli/client.cpp:855-897 | goes on only after an exchange of hellos that identified the daemon |
| Restart.Client.VerifyFrozenSession | src/cli/client.cpp:899-931 | running only if owner, main and control sockets of the frozen target were in place at the moment of the handshake, the main socket served by the owner; a transition only if one of the looks saw something else |
| Restart.Client.ProbeDaemonSurface | src/cli/client.cpp:933-963 | the same for the whole probe, which freezes at most one target |
| Restart.Client.SpawnReplacementOnce | src/cli/client.cpp:1543-1553 | spawns unless it has succeeded before |
| Restart.Client.AcceptReplacement | src/cli/client.cpp:1555-1575 | accepts if and only if the handshake is Ok and the process is not the old owner's |
| Restart.Client.AdvanceReplacement | src/cli/client.cpp:1579-1610 | spawns at most once, only when everything frozen so far is gone and something was frozen or found absent; a failure has its reason in what the last probe found or in what went wrong |
| Restart.Client.TryReplacement | src/cli/client.cpp:1622-1633 | one round of the wait: ready only with the new surface in place and an Ok hello, and never "retained the old owner" |
| Restart.Client.WaitForReplacement | src/cli/client.cpp:1612-1639 | over all rounds at most one spawn, and exactly one if asked to spawn at once; a timeout only late and with the last surface absent, starting or in transition |
| Restart.Client.RunDaemonRestart | src/cli/client.cpp:1719-1769 | at most one spawn, made when the target of the first probe and every other target frozen before it was gone and, if none was, after the surface was found absent; success only for a surface that was in place with an Ok hello, whose owner is new, and never without a spawn if a daemon ran; every failure has its reason in what the last probe found, in a hello that does not match, or in something that went wrong |
| Utf8.RangesAreValues | src/common/utf8.hpp:10-43 | checking the value of a character agrees with the byte ranges of section 4 of RFC 3629 |
| Utf8.FirstEncodes | src/common/utf8.hpp:10-43 | what the ranges accept is the encoding of its value |
| Utf8.EncodedIsFirst | src/common/utf8.hpp:10-43 | the encoding of every scalar value is accepted and read back |
| Utf8.DecodeThenEncode | src/common/utf8.hpp:9-46 | what decodes encodes back to the same bytes |
| Utf8.EncodeThenDecode | src/common/utf8.hpp:9-46 | every sequence of scalar values decodes to itself |
| Utf8.ValidIffDecodes | src/common/utf8.hpp:9-46 | bytes are some encoding if and only if they decode, and then of that sequence only |
| Utf8.UniqueDecomposition | src/common/utf8.hpp:9-46 | equal encodings are encodings of equal sequences |
| Utf8.CheckCharacter | src/common/utf8.hpp:11-43 | one round of the scan accepts exactly the well-formed character at the index |
| Utf8.ValidUtf8 | src/common/utf8.hpp:9-46 | true if and only if the bytes concatenate encodings of scalar values |
| Utf8.CutsAtBoundaries | scripts/generate_schema_assets.py:443-451 | a valid text may be cut wherever the next byte is not a continuation |
| Utf8.NoFourTails | scripts/generate_schema_assets.py:445-447 | four continuation bytes never follow each other |
| Chunking.LiteralChunks | scripts/generate_schema_assets.py:433-452 | chunks join to the input, each is valid UTF-8 of at most 16 KiB, all but the last at most three bytes shorter, and each ends at the last place within the limit where no character is cut; the bound failure is unreachable; invalid input is refused |
| Chunking.FourthTail | scripts/generate_schema_assets.py:445-447 | the scan back stops within three bytes |
| JsonValue.LessIsTotal | src/common/canonical_json.cpp:19-24 | the order of unsigned bytes is total and strict |
| JsonValue.LessIsTransitive | src/common/canonical_json.cpp:19-24 | and transitive |
| JsonValue.LessIff | src/common/canonical_json.cpp:19-24 | one key is less than another if and only if it is a proper prefix or has the smaller unsigned byte where they first differ |
| JsonValue.Sort | src/common/canonical_json.cpp:70-77 | sorting neither loses nor adds a member |
| JsonValue.SortSorts | src/common/canonical_json.cpp:75-77 | members with distinct keys come out strictly ordered |
| JsonValue.SortedIsUnique | src/common/canonical_json.cpp:75-77 | there is one ordered sequence of a set of members |
| JsonValue.SortDependsOnMembersOnly | src/common/canonical_json.cpp:70-77 | the order of insertion does not matter |
| JsonValue.SameIffNormalsEqual | src/common/canonical_json.cpp:97-125 | two values are the same, by value, item and member, if and only if their normal forms are equal |
| JsonText.CharRoundTrip | src/common/canonical_json.cpp:33-44 | every byte is read back from its escaped form |
| JsonText.EscapedByteIs | src/common/canonical_json.cpp:33-44 | quote and backslash are escaped with a backslash, control characters by four lower-case hex digits of their value, nothing else |
| JsonText.StringRoundTrip | src/common/canonical_json.cpp:26-48 | every string is read back from its quoted form |
| JsonText.NaturalRoundTrip | src/common/canonical_json.cpp:106-113 | every number is read back from its digits |
| JsonText.ItemsRoundTrip | src/common/canonical_json.cpp:53-66 | every array is read back |
| JsonText.MembersRoundTrip | src/common/canonical_json.cpp:69-94 | every object is read back, members in order |
| JsonText.RoundTrip | src/common/canonical_json.cpp:97-125 | the reader gives back every value from its text, whatever follows that does not begin with a digit |
| CanonicalJson.FailureIffNotClean | src/common/canonical_json.cpp:26-125 | the traversal fails if and only if some string or key is not UTF-8 or some node is unsupported |
| CanonicalJson.NormalIsAsClean | src/common/canonical_json.cpp:69-94 | sorting neither hides nor makes a failure |
| CanonicalJson.SortKeepsNormal | src/common/canonical_json.cpp:70-77 | sorting looks at keys only |
| CanonicalJson.NormalAscends | src/common/canonical_json.cpp:69-94 | in a normal form the keys of every object ascend, at every depth |
| CanonicalJson.Writer.constructor | src/common/canonical_json.cpp:129-131 | writing starts with an empty output |
| CanonicalJson.Writer.AppendByte | src/common/canonical_json.cpp:33-44 | appends the escaped form of one byte |
| CanonicalJson.Writer.AppendString | src/common/canonical_json.cpp:26-48 | appends the quoted string, or fails exactly for invalid UTF-8 |
| CanonicalJson.Writer.AppendArray | src/common/canonical_json.cpp:53-66 | appends the array's canonical text, or fails with the first failure in order |
| CanonicalJson.Writer.AppendMember | src/common/canonical_json.cpp:80-91 | appends one member with its separator and key, or fails with the member's first failure |
| CanonicalJson.Writer.AppendObject | src/common/canonical_json.cpp:69-94 | the same for an object, its members in the order LessIff describes |
| CanonicalJson.Writer.AppendValue | src/common/canonical_json.cpp:97-125 | the same for any value |
| CanonicalJson.Canonical | src/common/canonical_json.cpp:129-136 | succeeds if and only if nothing is unsupported or invalid, with the canonical text; otherwise reports the first failure |
| CanonicalJson.NormalIsSame | src/common/canonical_json.cpp:69-125 | normalizing twice changes nothing more |
| CanonicalJson.ReadsBack | src/common/canonical_json.cpp:129-136 | the reader recovers a value that is the same, and writing it again gives the same text |
| CanonicalJson.CanonicalKeysAscend | src/common/canonical_json.cpp:69-136 | what the reader recovers from a canonical text has ascending keys in every object, in the order of unsigned bytes |
| CanonicalJson.TextsEqualIffSame | src/common/canonical_json.cpp:129-136 | two values have equal texts if and only if they are the same value |
| CanonicalJson.InsertionOrderIsIrrelevant | src/common/canonical_json.cpp:69-94 | text and failure do not depend on the order of members |
| Sha256Spec.Pad | src/common/sha256.cpp:59-75 | padding fills whole blocks |
| Sha256Constants.PrimeIs | src/common/sha256.cpp:12-22 | the table holds the first sixty-four primes, all of them and in order |
| Sha256Constants.RoundNumberIs | src/common/sha256.cpp:12-22 | each round constant is the first 32 bits of the fractional part of the cube root of its prime |
| Sha256Constants.InitialNumberIs | src/common/sha256.hpp:23-24 | each initial word is the first 32 bits of the fractional part of the square root of its prime |
| Sha256Bits.ChBit | src/common/sha256.cpp:111-111 | each bit of Ch comes from the second word where the first has a one and from the third elsewhere |
| Sha256Bits.MajBit | src/common/sha256.cpp:114-114 | each bit of Maj is the majority of the three |
| Sha256Bits.BigSigma0Bit | src/common/sha256.cpp:113-113 | each bit is the sum of the bits 2, 13 and 22 places up, cyclically |
| Sha256Bits.BigSigma1Bit | src/common/sha256.cpp:110-110 | the same with 6, 11 and 25 |
| Sha256Bits.SmallSigma0Bit | src/common/sha256.cpp:104-104 | the same with 7 and 18, and 3 with zeros coming in |
| Sha256Bits.SmallSigma1Bit | src/common/sha256.cpp:105-105 | the same with 17 and 19, and 10 with zeros coming in |
| Sha256Bits.RoundConstantIs | src/common/sha256.cpp:12-22 | each round constant, as a word, represents the number of its table |
| Sha256Bits.InitialHashIs | src/common/sha256.hpp:23-24 | so does each initial word |
| Sha256Bits.WordAtIs | src/common/sha256.cpp:94-100 | a word of the block is its four bytes as one number, the first most significant |
| Sha256Bits.WordBytesAre | src/common/sha256.cpp:76-85 | the four bytes of a word are the digits of its number, the most significant first |
| Sha256Bits.WordRoundTrip | src/common/sha256.cpp:76-100 | four bytes make a word whose bytes are those four |
| Sha256Bits.AddIs | src/common/sha256.cpp:101-132 | addition of words is addition of their numbers modulo 2^32 |
| Sha256Bits.Sum4Is | src/common/sha256.cpp:106-106 | so is the sum of four, whose order therefore does not matter |
| Sha256Bits.BigEndianIs | src/common/sha256.cpp:71-74 | the bytes of the length field are the digits of the length, the most significant first |
| Sha256Spec.LengthFieldIsExactIff | src/common/sha256.cpp:61-61 | the length field holds the bit length if and only if the message is under 2^61 bytes |
| Sha256Spec.PaddingIsUnambiguous | src/common/sha256.cpp:59-75 | two messages under 2^61 bytes with the same padded form are equal |
| Sha256.Absorb | src/common/sha256.cpp:43-47 | bytes that do not fill the block are kept for later |
| Sha256.AbsorbBlock | src/common/sha256.cpp:48-51 | a filled block is hashed as the next block of the message |
| Sha256.FinishInOne | src/common/sha256.cpp:69-75 | with room for the length, the padded message ends in one more block |
| Sha256.FinishInTwo | src/common/sha256.cpp:62-75 | without room it ends in two |
| Sha256.AbsorbTwoBlocks | src/common/sha256.cpp:62-75 | what completes the block and one block more are hashed as the end of the message |
| Sha256.ScheduleStep | src/common/sha256.cpp:101-107 | the program's order of addition gives the schedule of section 6.2.2 of FIPS 180-4 |
| Sha256.DomainsSeparate | src/common/sha256.cpp:145-155 | what is hashed for a domain without NUL determines domain and payload |
| Sha256.Sha256.constructor | src/common/sha256.hpp:23-27 | a new object stands for the empty message |
| Sha256.Sha256.Copy | src/common/sha256.cpp:60-60 | a copy stands for the same message and shares nothing |
| Sha256.Sha256.ExpandBlock | src/common/sha256.cpp:93-107 | the sixty-four words are the message schedule, whose words and sums WordAtIs, SmallSigma0Bit, SmallSigma1Bit and Sum4Is describe |
| Sha256.Sha256.RunRounds | src/common/sha256.cpp:108-124 | the loop computes the sixty-four rounds |
| Sha256.Sha256.AddToDigest | src/common/sha256.cpp:125-132 | each word of the digest grows by its working variable |
| Sha256.Sha256.Transform | src/common/sha256.cpp:92-133 | the digest becomes the compression of the old digest and the block |
| Sha256.Sha256.TakeIn | src/common/sha256.cpp:43-51 | copying into the block and hashing a full one extends the message by exactly those bytes |
| Sha256.Sha256.Update | src/common/sha256.cpp:37-53 | the message grows by exactly these bytes for every split into blocks, or the call is refused if and only if the count would overflow |
| Sha256.Sha256.Finish | src/common/sha256.cpp:59-86 | returns the hash of the message so far, as bytes in the order WordBytesAre describes, and changes nothing |
| Sha256.Sha256.Output | src/common/sha256.cpp:76-85 | the digest's words come out most significant byte first |
| Sha256.Sha256.PadAndTransform | src/common/sha256.cpp:61-75 | the digest becomes that of the padded message |
| Sha256.Sha256.FinishBlock | src/common/sha256.cpp:69-75 | zeros and the length complete the last block |
| Sha256.Sha256.WriteLength | src/common/sha256.cpp:71-74 | the length is written most significant byte first |
| Sha256.DomainSeparated | src/common/sha256.cpp:145-155 | three updates hash domain, NUL and payload; a domain with NUL is refused |
| Search.FindText | src/common/invite_redaction.cpp:121-121 | the first occurrence at or after a position, or none |
| Search.OccursInSlice | src/common/invite_redaction.cpp:128-132 | what occurs in a slice occurs in the whole, at the matching position |
| Search.OccursInParts | src/common/invite_redaction.cpp:132-134 | an occurrence in three parts lies in the first, in the last, or agrees with the middle one where they meet |
| InviteLink.SpellingsHaveToken | src/common/invite_link.hpp:23-44 | every spelling of a valid token has that token |
| InviteLink.SpellingsAre | src/common/invite_link.hpp:59-65 | the four spellings, written out |
| InviteLink.TokenIffSpelling | src/common/invite_link.hpp:23-44 | a link has a token if and only if it is one of that token's four spellings |
| InviteLink.ExactAliases | src/common/invite_link.hpp:50-78 | exactly the four spellings, each once, the link itself first; none for other links |
| InviteRedaction.FirstMatch | src/common/invite_redaction.cpp:117-127 | the first position where some alias occurs, and nothing occurs before it |
| InviteRedaction.GapIsFree | src/common/invite_redaction.cpp:128-132 | a stretch without match positions contains no alias |
| InviteRedaction.SplitIsRight | src/common/invite_redaction.cpp:114-136 | the parts make up the text, no gap contains a live alias, only aliases are taken out |
| InviteRedaction.SplitIsLeftmostLongest | src/common/invite_redaction.cpp:114-136 | every link taken out is the leftmost match from where the last one ended, and the longest there |
| InviteRedaction.LeftmostLongestOnce | src/common/invite_redaction.cpp:114-136 | a text can be taken apart like that in one way only |
| InviteRedaction.RedactedIs | src/common/invite_redaction.cpp:93-137 | redaction is what replacing the links of that one division gives |
| InviteRedaction.DetachedIsErased | src/common/invite_redaction.cpp:93-137 | a live alias without overlap with the replacement is gone from every redacted text, whatever else is registered |
| InviteRedaction.OverlapReappears | src/common/invite_redaction.cpp:93-137 | for an alias with an overlap, the text and the second link that make it appear in the output |
| InviteRedaction.ErasedIffNoOverlap | src/common/invite_redaction.cpp:93-137 | a nonempty alias is gone from every redacted text, whatever else is registered, if and only if it has no overlap with the replacement |
| InviteRedaction.InviteReappears | src/common/invite_redaction.cpp:93-137 | redacting the registered string invite gives a text that contains it |
| InviteRedaction.SpellingsAreErased | src/common/invite_link.hpp:50-78 | every spelling of every valid token is gone from every redacted text |
| InviteRedaction.Registry.RegisteredLinkIsErased | src/common/invite_redaction.cpp:69-137 | while one spelling of a Telegram link is live, no spelling of it occurs in any text redacted with the registry |
| InviteRedaction.BestIsFirstMatch | src/common/invite_redaction.cpp:118-127 | the best of all aliases, in any order, is the leftmost and there the longest match |
| InviteRedaction.SpellingsAreEquivalent | src/common/invite_link.hpp:50-78 | all spellings of a token register the same aliases |
| InviteRedaction.Registry.constructor | src/common/invite_redaction.hpp:55-57 | a new registry has no live links |
| InviteRedaction.Registry.RegisterLink | src/common/invite_redaction.cpp:69-91 | a fresh registration with exactly the link's aliases, others untouched; refused if and only if the link is empty or the numbers are used up |
| InviteRedaction.Registry.Release | src/common/invite_redaction.cpp:139-151 | removes this registration and nothing else |
| InviteRedaction.Registry.CollectAliases | src/common/invite_redaction.cpp:94-112 | collects exactly the live aliases |
| InviteRedaction.Registry.Search | src/common/invite_redaction.cpp:118-127 | finds the best match of one round |
| InviteRedaction.Registry.Redact | src/common/invite_redaction.cpp:93-137 | the output is the leftmost-longest redaction, which depends on the set of live aliases only |
| HeaderLines.LinesJoin | scripts/generate_raw_policy.py:324-340 | the lines of a text join to the text |
| HeaderLines.SplitEndingOf | scripts/generate_raw_policy.py:343-348 | a line is split into the body and ending it was made of |
| HeaderLines.PhysicalHeaderLines | scripts/generate_raw_policy.py:324-340 | the loop yields exactly the lines that CR, LF and CR LF end |
| HeaderNormalize.RawStringOpener | scripts/generate_raw_policy.py:351-368 | a raw string's contents start behind its opener, within the line |
| HeaderTokens.LinesIff | scripts/generate_raw_policy.py:324-340 | the lines of a text are the only ones, each ended by CR, LF or CR LF, that join to it |
| HeaderNormalize.NormalStep | scripts/generate_raw_policy.py:391-423 | every step of the scan goes forward and stays within the line |
| HeaderNormalize.ScanPreservedHeaderLine | scripts/generate_raw_policy.py:371-436 | the loop computes the lexer's state at the end of a line, or refuses, which ScanFollowsTokens gives by the tokens of the line |
| HeaderNormalize.LinesAreNeat | scripts/generate_raw_policy.py:324-348 | a CR line is never directly followed by a bare LF line |
| HeaderNormalize.RunSettles | scripts/generate_raw_policy.py:445-473 | lines are dropped only where nothing is open, so the state depends on kept lines only |
| HeaderNormalize.EmptyLineChangesNothing | scripts/generate_raw_policy.py:371-436 | an empty line where nothing is open changes no state |
| HeaderNormalize.MergedRuns | scripts/generate_raw_policy.py:445-473 | kept lines are kept again, also where a CR and an LF line read as one |
| HeaderNormalize.MergeJoins | scripts/generate_raw_policy.py:477-477 | reading them as one changes no character |
| HeaderNormalize.MergeIsLines | scripts/generate_raw_policy.py:324-340 | kept lines put together read as the merged lines |
| HeaderNormalize.NormalizeIsIdempotent | scripts/generate_raw_policy.py:439-477 | whenever normalization succeeds, its output normalizes to itself |
| HeaderNormalize.KeptLinesAreNotDocumentation | scripts/generate_raw_policy.py:459-473 | lines that are all kept have no documentation where it would count as such |
| HeaderNormalize.DocumentationIsGone | scripts/generate_raw_policy.py:439-477 | no line of a normalized header is a Doxygen comment where the lexer would take it for one |
| HeaderNormalize.RunKeepsTheRest | scripts/generate_raw_policy.py:445-473 | from every line on, the run keeps exactly the lines that are not part of a comment, in order |
| HeaderNormalize.OnlyCommentsAreTaken | scripts/generate_raw_policy.py:439-477 | whenever normalization succeeds, its output is the lines outside Doxygen comments, joined |
| HeaderNormalize.NothingElseIsLost | scripts/generate_raw_policy.py:439-477 | a header without Doxygen comments stays as it is, to the character |
| HeaderNormalize.NormalizeDoxygenHeader | scripts/generate_raw_policy.py:439-477 | the loop computes the normalization, refusals included, which NormalizeIsRight gives by the lines outside comments |
| HeaderTokens.QuotedScan | scripts/generate_raw_policy.py:428-435 | inside a literal, the scan leaves it behind the first quote with an even number of backslashes before it, and nowhere else |
| HeaderTokens.BlockScan | scripts/generate_raw_policy.py:424-427 | inside a block comment, it leaves it behind the first end mark |
| HeaderTokens.RawFind | scripts/generate_raw_policy.py:380-389 | a raw string ends with its own delimiter, at its first occurrence |
| HeaderTokens.RawStringOpenerIs | scripts/generate_raw_policy.py:351-368 | a raw string is recognized if and only if one of the five prefixes stands at a boundary, and refused only if no delimiter of at most 16 allowed characters follows |
| HeaderTokens.RawOpensOnce | scripts/generate_raw_policy.py:351-368 | at most one raw string opens at a place, and it is the one recognized |
| HeaderTokens.TokenIsUnique | scripts/generate_raw_policy.py:371-436 | at most one token starts at a place |
| HeaderTokens.LineDividesOnce | scripts/generate_raw_policy.py:371-436 | every line divides into tokens, from every mode, and in one way only |
| HeaderTokens.ScanFollowsTokens | scripts/generate_raw_policy.py:371-436 | the scan refuses a line if and only if a token is malformed, ends in normal mode if and only if all are closed, and otherwise ends in the mode of the open one |
| HeaderTokens.OnlyTokenIff | scripts/generate_raw_policy.py:451-462 | a line holds only a mark if and only if it is that mark between blanks |
| HeaderTokens.DocumentationLineIff | scripts/generate_raw_policy.py:464-464 | a line is a documentation line if and only if it is blanks, three slashes, and then nothing or something that begins with a space |
| HeaderTokens.NormalizeIsRight | scripts/generate_raw_policy.py:439-477 | a header is normalized if and only if it can be read line by line, by the tokens of its lines, from its beginning to an end where nothing is open, and the result is then its lines outside Doxygen comments, in order and to the character |

## Left out

- `load` and its observation of a marker: the test for the marker and the opening of the file are not atomic.
- `stat` ownership, mode, link-count and same-file checks of the store, and replacement of the lock file or directory by others: each is a call that may fail.
- Editing of config.toml by anyone who does not take the lock; several temporary files at once; the temporary file's name.
- Directory updates that reach the disk out of order, apart from the first unlink of a committed cleanup.
- The digest as a string: the store takes it as a function, and a mutation must not turn a document into a different one with the same digest.
- TOML text, which is library code; lenient conversions between TOML types; the reasons and messages of errors.
- Public entry points of the store, which only build the mutation.
- Exceptions out of the condition's wait; how far a deadline is; `Thread` and `Token`; 64-bit wrap-around of generation and registration counts.
- The loss of a POSIX record lock when its process closes another descriptor of the file.
- Frame contents, the control socket's own protocol and stop responses: a request is sent or fails, an answer is one that lets the stop go on or not.
- `daemon status`, rendering of results, and the client's other commands.
- Restart.Client.OwnerReleased: an observed owner without a pid counts as released in the program and does not occur in a frozen target.
- Bit operations on single bytes in UTF-8 validation are written as division and remainder.
- JSON numbers that do not fit 64 bits do not arise in the program and are written like the others here.
- `finish_hex` and the other wrappers that only print a digest.
- Sharing of one registration by several handles; locking of the registry; wiping of memory.
- The sort of aliases by length before redaction: the result is proved for every order of them.
- Which characters Python calls alphanumeric is a parameter of the header model; the messages of its refusals are not modelled.
