# Verified model of the inception mount, the egress gate and the truth surfaces

Four parts of SourceOS keep promises that are about whole histories rather than single calls. This project models them
and proves those promises.

- **The inception mount** (`Governance`, `Mount`, `MountCalls`, `MountRuns`). Every operation on a mounted space crosses a fail-closed
  capability membrane and leaves a receipt in a hash-chained ledger that all views of the mount share. Main results:
  the last hash commits to the whole history, tampering is found where it happened, and over every run the ledger
  verifies, counts the calls exactly and records every effect.
- **Versions** (`Retention`, `Retain`, `Names`, `Trees`, `Snapshots`, `StoreRuns`, `Replicate`). A space's state is
  frozen under the hash of its tree, pruned by a policy in a bounded loop that may fail at any point, and streamed
  between nodes. Main results: the plan is the only stable prefix cut, the loop conserves versions under any faults and
  converges within exactly ceil(p / max) + 1 ticks, and over every run it is known exactly when ids stand for the trees
  that hash to them and when ledger and store agree on what is held.
- **The egress gate** (`GateStore`, `Nft`, `Egress`, `EgressRuns`, `KernelRuns`, `Daemon`, `Requests`,
  `DaemonRuns`). Grants are accepted once, expire, are pruned, and are written to three kernel sets that are read back
  through two parsers; a daemon interleaves clients over it. Main results: run-wide conservation, at-most-once
  acceptance, the provenance of everything in the kernel, the exact condition under which verify succeeds after apply,
  and serialisability.
- **Surfaces** (`Nulls`, `Seals`, `Surface`, `SurfaceShows`). Documents are rid of nulls, sealed with digests and judged by a gate. Main results:
  exactly the nulls go, a sealed document certifies itself, and the delta's evidence is the surface's.

`Text`, `Json`, `Sorting`, `Options` and `Codecs` hold what these share: numerals, `strip`, `replace("/32", "")`,
comma splitting, parsed JSON, an in-place stable insertion sort, and the library calls that stay abstract.

Code that works in place is written as classes and loops (`ReceiptLog`, `Retainer`, `DevSnapshotter`, `InceptionFS`,
`Store`, `KernelSets`, `EgressGate`, `HandleClient` and the rest), each method proved against a function of the old
state; the results about runs are about those functions. Clock readings, I/O failures, kernel answers and the order of
directory walks are parameters, so each result holds for all of them.

Nothing assumes that the hash is injective, which no function to 64 characters can be. Results that need it conclude
"equal, or here are two texts with the same digest".

## Where code and documentation differ

The model follows the code.

- `Converge` is documented to return the total pruned; it drops the partial result of a failing tick
  (`Retain.FailedTickGoesUnreported`; exactly when: `Retain.ReturnsTotalIff`,
  `Retain.AlwaysReturnsTotalIff`).
- Retention is documented as fail-safe; a policy with a negative field and no positive one deletes everything
  (`Retention.AlwaysPrunes`).
- Receipts are documented as tamper-evident; fields are joined with `|` without escaping, so that an edit that moves a bar
  across a field boundary goes unnoticed (`Governance.BarsBreakCommitment`, `Governance.EditUnnoticedIff`).
- A version is documented as content-addressed; a directory left by a failed copy is taken for the version on the next
  attempt (`Snapshots.PartialCopyPoisons`, `StoreRuns.PartialCopyUnpinned`; exactly when: `StoreRuns.AgreesIff`,
  `StoreRuns.FaithfulIff`), and tree lines join paths without escaping newlines
  (`Trees.NewlinesBreakTreeHash`; exactly when: `Trees.TreeHashDeterminesIff`).
- `install_grant(apply=True)` and `prune(apply=True)` commit before `apply` can fail, also where the error is then coded
  internal (`Egress.FailureLeaves`, `DaemonRuns.ErrorsLeave`).
- Verify after apply is not always a success: `replace("/32", "")` is applied a different number of times on the two
  sides, and blank addresses and negative ports are dropped on one side only (`Nft.ApplyThenVerifyIff`).

## Model

| member | source | states |
|---|---|---|
| Governance.CheckFailsClosed | src/inception-mount/fs/governance.go:57-75 | An operation passes if and only if a lease for this very space is presented, has not expired and grants the operation's class; what passes now passed earlier; a read-only lease passes exactly reads, a read-write lease everything in its space |
| Governance.PayloadDetermines | src/inception-mount/fs/governance.go:105-106 | Equal payloads of chained receipts force equal number, link and instant, and equal receipts if and only if subject, space, op and path hold equally many bars; the verdict, last, may hold any |
| Governance.ReceiptLog.Append | src/inception-mount/fs/governance.go:98-112 | The log grows by exactly the stamped receipt, chained to the previous head and numbered by position, and stays a valid ledger |
| Governance.ReceiptLog.Entries | src/inception-mount/fs/governance.go:115-121 | The copy is the whole chain |
| Governance.ReceiptLog.Verify | src/inception-mount/fs/governance.go:124-141 | On any stored chain, valid or not: no error if and only if every link and hash is right; an error names the first receipt that is wrong and whether its link (tested first) or its hash is |
| Governance.LedgerGrows | src/inception-mount/fs/governance.go:98-112 | A receipt with the next number, the head as its link and its own hash extends a ledger to a ledger with that hash as head |
| Governance.FirstFaultUnique | src/inception-mount/fs/governance.go:124-141 | A chain with a first fault is not accepted, and its first fault is unique |
| Governance.HeadCommitsIff | src/inception-mount/fs/governance.go:98-141 | Two accepted ledgers with the same last hash and no colliding payloads have the same length and the same number, link, instant and hash at every position, whatever their fields hold; they are equal if and only if their fields hold equally many bars, receipt by receipt |
| Governance.HeadCommits | src/inception-mount/fs/governance.go:98-141 | So two accepted ledgers of bar-free receipts with the same last hash are equal, receipt by receipt, or two of their payloads collide under the hash |
| Governance.BarsBreakCommitment | src/inception-mount/fs/governance.go:105-106 | Under every hash two different one-receipt ledgers, with a bar moved across a field boundary, have the same head without any collision: bar-freeness is needed |
| Governance.EditUnnoticedIff | src/inception-mount/fs/governance.go:124-141 | Changing receipt i and not its hash goes unnoticed if and only if link and joined payload are kept, which for equal bar counts means nothing was changed; what is noticed is noticed at exactly i, as a broken chain if the link was changed and as tampering otherwise |
| Governance.EditFailsAtItself | src/inception-mount/fs/governance.go:124-141 | So changing any bound field of receipt i, bar counts kept, and not its hash makes verification fail at exactly i |
| Governance.RehashFailsAtNext | src/inception-mount/fs/governance.go:124-141 | Changing receipt i and recomputing only its hash fails at exactly i if the link was changed and at exactly i+1 otherwise; on the last receipt verification then still succeeds, and only the head differs |
| Retention.Deal | src/inception-mount/backend/retention.go:32-42 | On a newest-first sequence the per-version verdicts, by rank and saturating age, put a prefix in keep and the rest in prune |
| Retention.Plan | src/inception-mount/backend/retention.go:29-43 | Sorting a copy in place and dealing it computes the specified split |
| Retention.PlanIsPrefixCut | src/inception-mount/backend/retention.go:23-43 | keep then prune is the stable newest-first sort of the input: nothing is lost, nothing kept is older than anything pruned, and a version is kept if and only if its rank or age qualifies or the policy is zero |
| Retention.PlanInPlainTerms | src/inception-mount/backend/retention.go:29-43 | Newest first, a version is kept if and only if both numbers are zero, or its rank is below keepLast, or keepSince is positive and now - created is at most keepSince (or keepSince is the longest duration, at which longer ages saturate) |
| Retention.PlanKeeps | src/inception-mount/backend/retention.go:29-43 | For any other than the zero policy: everything inside the window is kept and nothing pruned is inside it, at least the newest keepLast are kept, and without a window exactly those |
| Retention.PlanIsTheOnlyPrefixCut | src/inception-mount/backend/retention.go:23-43 | Any stable newest-first split that keeps exactly the qualifying ranks is the plan |
| Retention.PlanAfterPruning | src/inception-mount/backend/retention.go:29-43 | Deleting any part of the prune set leaves the keep set unchanged and the prune set without that part |
| Retention.PlanLater | src/inception-mount/backend/retention.go:29-43 | Planning the kept versions again at a later time keeps what planning the original set at that time keeps |
| Retention.NeverPrunes | src/inception-mount/backend/retention.go:15-22 | A policy prunes nothing from any input at any time if and only if it is the zero policy or its window is the longest duration there is |
| Retention.AlwaysPrunes | src/inception-mount/backend/retention.go:32-36 | A policy keeps nothing of any input if and only if neither field is positive and it is not the zero policy, so a negative field deletes everything |
| Retain.VersionStore.Prune | src/inception-mount/backend/retention.go:45-54 | A delete that succeeds removes exactly the entries with that handle; one that fails removes nothing |
| Retain.Apply | src/inception-mount/backend/retention.go:56-67 | Deletes in plan order, stops at the first failing delete, and returns exactly what was deleted |
| Retain.Retainer.Tick | src/inception-mount/backend/retain.go:26-39 | One tick changes the store and answers as the tick specification says, under every failure of listing and deleting |
| Retain.Retainer.Converge | src/inception-mount/backend/retain.go:41-56 | What the loop deletes, whatever fails, is a prefix of the plan made at the start; it returns all of that prefix except the partial deletions of a failing tick, and stops as the counted loop says |
| Retain.TickConserves | src/inception-mount/backend/retain.go:26-39 | Under any faults: versions held before are versions held after plus those returned, which are a prefix of the prune sequence no longer than the positive bound; nothing in keep is touched; the plan for what is left is the same keep and the rest of prune; a failed listing deletes nothing |
| Retain.ConvergesExactly | src/inception-mount/backend/retain.go:16-21 | Without faults the loop converges if and only if it may run more than ceil(p / max) ticks for p deletions (max positive; otherwise one tick more than one if anything is to go), has then deleted all p, and otherwise the first maxTicks * max; nothing is lost |
| Retain.OutcomeIff | src/inception-mount/backend/retain.go:43-56 | For any script of faults, the loop reports a failed tick if and only if a tick it gets to fails to list or to delete all it attempts, converges if and only if it gets to a tick that lists and has nothing to delete, and otherwise runs out of ticks |
| Retain.TicksAreCeiling | src/inception-mount/backend/retain.go:14-21 | The ticks needed for p deletions, max at a time, are p / max rounded up |
| Retain.FaultFreeTrace | src/inception-mount/backend/retain.go:43-56 | With no faults the counted loop's outcome is decided by the ticks left against the ticks needed, from any point of the loop |
| Retain.LoopConserves | src/inception-mount/backend/retain.go:41-56 | After any number of the plan's deletions the start set is what is held plus what was deleted and the plan is its own remainder; after all of them exactly keep is held |
| Retain.LosesIff | src/inception-mount/backend/retain.go:43-56 | From any point of the loop, versions are deleted and not returned if and only if some tick there is time for lists its versions, makes at least one delete and fails before its last, the ticks before it having completed |
| Retain.ReturnsTotalIff | src/inception-mount/backend/retain.go:41-50 | For any script of faults, the returned versions are all that was deleted if and only if no tick there is time for breaks off part way after complete ones, where the deletes of each tick are known from the size of the plan |
| Retain.AttemptsAre | src/inception-mount/backend/retain.go:36-38 | Tick t, after complete ones, attempts what is left of the plan after t full ticks, up to the bound |
| Retain.AlwaysReturnsTotalIff | src/inception-mount/backend/retain.go:41-50 | The total comes back under every script of faults if and only if the loop runs no tick, the plan has at most one deletion, or a tick is bounded to one |
| Retain.FailedTickGoesUnreported | src/inception-mount/backend/retain.go:46-49 | A first tick whose second delete fails has deleted a version that the loop does not return |
| Retain.PrunedPrefix | src/inception-mount/backend/retain.go:34-38 | After deleting the first k of the prune set, the plan for what is left is the same keep set and the rest of the prune set |
| Names.WalkOrderIrrelevant | src/inception-mount/backend/dev.go:105 | Sorting a walk of the paths gives the same sequence in whatever order the walk visited them |
| Trees.CollectEntries | src/inception-mount/backend/dev.go:79-101 | One entry per file walked, with its path, mode and content digest |
| Trees.SortRels | src/inception-mount/backend/dev.go:105 | Sorting the entries by path sorts the paths |
| Trees.DigestEntries | src/inception-mount/backend/dev.go:106-110 | Feeding the sorted entries' lines to the digest gives the tree's hash |
| Trees.HashTree | src/inception-mount/backend/dev.go:71-111 | The result is a function of the tree alone, not of the walk |
| Trees.TreeTextOfOne | src/inception-mount/backend/dev.go:106-110 | A single file's line is its path, octal mode and content digest joined by bars, and a newline |
| Trees.RowDetermines | src/inception-mount/backend/dev.go:108 | One file's line determines its path, mode and content digest, even if the path holds bars |
| Trees.TreeTextDeterminesIff | src/inception-mount/backend/dev.go:105-109 | Two trees with the same digested text hold the same paths if and only if their sorted paths hold equally many newlines, position by position, and then agree in every mode and content digest |
| Trees.TreeHashDeterminesIff | src/inception-mount/backend/dev.go:71-111 | Two trees that hash alike without a collision are equal if and only if their sorted paths hold equally many newlines, position by position |
| Trees.TreeHashDetermines | src/inception-mount/backend/dev.go:71-111 | So trees without newlines in their paths that hash alike agree in every path, mode and content, or exhibit a hash collision |
| Trees.NewlinesBreakTreeHash | src/inception-mount/backend/dev.go:108 | Under every hash, one file with a newline in its path has the digest of two files without |
| Snapshots.CopyTreeReadOnly | src/inception-mount/backend/dev.go:113-141 | Every path with its content, at mode 0444 |
| Snapshots.DevSnapshotter.List | src/inception-mount/backend/dev.go:30-54 | The store's directories by name, with their handles and times; nothing when listing fails |
| Snapshots.DevSnapshotter.Snapshot | src/inception-mount/backend/dev.go:56-69 | Hashes, returns the present id unread, or copies and returns the new id; a failing copy reports an error and may leave a directory |
| Snapshots.DevSnapshotter.Prune | src/inception-mount/backend/retention.go:51-54 | Removes the directory the handle names, or nothing when it fails |
| Snapshots.ListingAfterPrune | src/inception-mount/backend/dev.go:30-54 | Removing one version's directory removes exactly its entry from the listing and keeps the order |
| Snapshots.ListingDistinct | src/inception-mount/backend/dev.go:30-54 | The listing holds each handle once, which is what the retention loop needs of a store |
| Snapshots.ListingShows | src/inception-mount/backend/dev.go:30-54 | The listing shows every directory once, in the order of names, with its handle and time |
| Snapshots.SnapshotOnlyAdds | src/inception-mount/backend/dev.go:56-69 | No frozen entry changes, at most the tree's own id is added, and a returned version has that id and is in the store |
| Snapshots.FaithfulHolds | src/inception-mount/backend/dev.go:56-69 | In a store whose ids stand for trees that hash to them, the directory of any tree's id holds that tree's paths and contents, or the hash collides |
| Snapshots.SnapshotFaithful | src/inception-mount/backend/dev.go:13-17 | While failing copies leave nothing behind, every id stands for a tree that hashes to it, and a successful snapshot's directory holds the working tree's paths and contents unless the hash collides |
| Snapshots.SnapshotFaithfulIff | src/inception-mount/backend/dev.go:61-68 | From a store whose ids stand for trees that hash to them, a snapshot keeps it so if and only if it does not fail copying to an absent id with a directory left behind, or leaves a tree with that very hash, which unless the hash collides is the complete copy |
| Snapshots.FrozenFromIff | src/inception-mount/backend/dev.go:71-141 | Unless the hash collides, a directory is a frozen tree with a given tree's hash if and only if it holds exactly that tree's paths and contents |
| Snapshots.PartialCopyPoisons | src/inception-mount/backend/dev.go:61-67 | After a copy that fails part way, the retry reports success with the partial content |
| Replicate.Send | src/inception-mount/backend/replicate.go:29-53 | One stream entry per file, in walk order, with its mode and content |
| Replicate.Receive | src/inception-mount/backend/replicate.go:55-81 | Writes entries one by one until the stream ends; a broken stream is an error and what came before it stays |
| Replicate.PrefixReceived | src/inception-mount/backend/replicate.go:55-81 | Any prefix of the sent stream, received into an empty directory, reproduces exactly the files it names, read-only |
| Replicate.RoundTrip | src/inception-mount/backend/replicate.go:29-81 | Sending in any order and receiving into an empty directory reproduces every path and content at mode 0444; a frozen tree comes back identical |
| Replicate.ReceivedOver | src/inception-mount/backend/replicate.go:55-81 | Over a directory that is not empty, the files sent have their contents, new ones at mode 0444 and those already there at their own, and the others are untouched |
| Replicate.ReplicaHashIsId | src/inception-mount/backend/replicate.go:70 | A replica's tree hash is the version's id if and only if every working file was already mode 0444, or the hash collides |
| Mount.ReadsDoNotWrite | src/inception-mount/fs/inceptionfs.go:97-167 | An operation the gate does not class as a write leaves the backend unchanged, for every flag combination of OpenFile |
| MountCalls.CallNeeds | src/inception-mount/fs/inceptionfs.go:97-167 | Create, Rename, Remove and an OpenFile with any of the five mutating flags pass if and only if a live lease for the space grants writing, every other call if and only if one grants reading; the refusal names the first reason and the receipt says read, list, stat or write |
| MountCalls.DenialReads | src/inception-mount/fs/governance.go:57-75 | The reason each refusal gives, with the operation, path, space, subject or expiry it is about |
| MountCalls.PayloadReads | src/inception-mount/fs/governance.go:105-106 | The hashed payload is the eight fields in order, joined by bars |
| MountCalls.OpenFileSays | src/inception-mount/fs/inceptionfs.go:104-113 | By the create, exclusive and truncate flags: a missing file is made with the mode asked or refused, one that is there is opened, emptied or refused |
| MountCalls.CreateSays | src/inception-mount/fs/inceptionfs.go:115-120 | A created file is empty, at mode 0666 if new and at its own otherwise, at the path under the view's base |
| MountCalls.RenameRemoveSay | src/inception-mount/fs/inceptionfs.go:143-155 | Renaming moves one file and removing takes one away, both under the view's base; no other file changes |
| MountCalls.ReadsSay | src/inception-mount/fs/inceptionfs.go:97-141 | Opening answers the file under the view's base, a stat its last name, mode and size or a directory's last name; neither changes anything |
| MountCalls.ReadDirSays | src/inception-mount/fs/inceptionfs.go:122-127 | Listing a directory shows exactly what is directly inside it; a file or nothing cannot be listed |
| MountCalls.CommitSays | src/inception-mount/fs/inceptionfs.go:55-76 | A commit passes if and only if a live lease for the space grants writing; its receipt is of class commit, under the lease's subject, and pins the version with its purpose if and only if one is made; a new version is the frozen tree at the instant of its own reading of the clock |
| Mount.InceptionFS.Gate | src/inception-mount/fs/inceptionfs.go:83-95 | The membrane's decision at the first reading of the clock, and exactly one receipt of it under the lease's subject, stamped at a second reading |
| Mount.InceptionFS.Open | src/inception-mount/fs/inceptionfs.go:97-102 | One receipt; the file, with its mode and content, only if allowed and there |
| Mount.InceptionFS.OpenFile | src/inception-mount/fs/inceptionfs.go:104-113 | One receipt, a write for any mutating flag; the backend's effect only if allowed |
| Mount.InceptionFS.Create | src/inception-mount/fs/inceptionfs.go:115-120 | One write receipt; the backend's effect only if allowed |
| Mount.InceptionFS.ReadDir | src/inception-mount/fs/inceptionfs.go:122-127 | One list receipt; the directory's entries, files with mode and size and directories by name, only if allowed |
| Mount.InceptionFS.Stat | src/inception-mount/fs/inceptionfs.go:129-134 | One stat receipt; the entry's name, kind, mode and size only if allowed |
| Mount.InceptionFS.Lstat | src/inception-mount/fs/inceptionfs.go:136-141 | One stat receipt; the entry's name, kind, mode and size only if allowed |
| Mount.InceptionFS.Rename | src/inception-mount/fs/inceptionfs.go:143-148 | One write receipt on the old path; the backend's effect only if allowed |
| Mount.InceptionFS.Remove | src/inception-mount/fs/inceptionfs.go:150-155 | One write receipt; the backend's effect only if allowed |
| Mount.InceptionFS.Chroot | src/inception-mount/fs/inceptionfs.go:157-167 | One list receipt; if allowed and the backend has the sub-tree, a view with the same backend, lease and ledger and no snapshotter, and otherwise none |
| Mount.InceptionFS.Commit | src/inception-mount/fs/inceptionfs.go:52-76 | No receipt without a snapshotter; otherwise exactly one, pinning the new version's id on success, or recording the denial or the error; check, version and stamp each read the clock |
| Mount.InceptionFS.WithSnapshotter | src/inception-mount/fs/inceptionfs.go:45-50 | Sets the snapshotter and nothing else |
| MountRuns.RunLedger | src/inception-mount/fs/inceptionfs.go:55-167 | Over every run through a root view and all its Chroot descendants: one ledger that verification accepts, numbered without gaps, with exactly one receipt per governed call or commit, never rewriting an earlier one |
| MountRuns.ReceiptSaysCall | src/inception-mount/fs/inceptionfs.go:81-167 | A call's one receipt holds its subject, space, operation class, path and the instant of its stamp, and says allow if and only if the membrane allowed it at the instant of its check; the backend's effect happens exactly in that case, and a new view exactly for an allowed Chroot the backend can serve |
| MountRuns.EventsSay | src/inception-mount/fs/inceptionfs.go:45-76 | A commit goes through a view that has a snapshotter and changes ledger and store as a commit does; without one nothing happens |
| MountRuns.EntriesOnlyGrow | src/inception-mount/fs/governance.go:114-121 | Every copy of the entries taken in a run is a prefix of every later one |
| MountRuns.EffectsAreReceipted | src/inception-mount/fs/inceptionfs.go:55-167 | Whatever a call or commit changes in backend or version store, its own receipt records a write-class operation that was not denied, under a lease that grants writing |
| MountRuns.ReadOnlyRun | src/inception-mount/fs/inceptionfs.go:55-167 | Under no lease or one without write capability, no run of calls and commits changes the backend or the version store |
| StoreRuns.TickOnStore | src/inception-mount/backend/retain.go:29-39 | A tick changes the directory store and nothing else, and leaves the listing that the retention results speak of |
| StoreRuns.AgreesIff | src/inception-mount/fs/inceptionfs.go:69-75 | From a world where each held version is pinned by an allow receipt of a commit and each pinned version no longer held was returned by a tick, any event keeps that if and only if it is not an allowed commit of an absent and unpinned id whose copy fails with a directory left behind |
| StoreRuns.StoreAndLedgerAgreeIff | src/inception-mount/fs/inceptionfs.go:69-75 | Over every run of calls, commits, edits and ticks, whatever fails: store and ledger agree at every point if and only if no commit fails in that way |
| StoreRuns.StoreAndLedgerAgree | src/inception-mount/fs/inceptionfs.go:69-75 | So in every run whose failing copies leave nothing behind they agree |
| StoreRuns.PartialCopyUnpinned | src/inception-mount/fs/inceptionfs.go:69-73 | A commit whose copy fails part way leaves a version that no receipt pins |
| StoreRuns.FrozenIsImmutable | src/inception-mount/backend/dev.go:56-69 | No event alters a frozen version, and only a tick that returns it removes it |
| StoreRuns.FaithfulIff | src/inception-mount/backend/dev.go:56-141 | From a store whose ids stand for trees that hash to them, any event keeps that if and only if no allowed commit of an absent id fails leaving anything but a tree with that hash |
| StoreRuns.VersionsStayFaithfulIff | src/inception-mount/backend/dev.go:56-141 | Over every run with newline-free paths, whatever fails: each id stands for a tree that hashes to it at every point if and only if no commit fails in that way |
| StoreRuns.VersionsStayCompleteIff | src/inception-mount/backend/dev.go:56-141 | And unless a working tree of the run collides under the hash: if and only if no allowed commit of an absent id fails leaving anything but the complete copy |
| StoreRuns.VersionsStayFaithful | src/inception-mount/backend/dev.go:56-141 | So in every such run with clean copies, whenever a tree, a working tree of the run for one, has its id in the store at the end, the directory holds exactly that tree's paths and contents, or the hash collides |
| GateStore.Store.RecordReplay | src/sourceos_gate/store.py:74-81 | True, with the pair recorded, if and only if the pair was new |
| GateStore.Store.InstallGrant | src/sourceos_gate/store.py:83-102 | Expiry first, then replay, then the insert; both rows or neither |
| GateStore.InstallSays | src/sourceos_gate/store.py:83-102 | Expired if and only if the expiry is not after the check, replayed if and only if it is and the pair is known; accepted, the pair is remembered and the grant kept as asked, with its protocol and instants; refused, nothing changes |
| GateStore.ProtoIff | src/sourceos_gate/store.py:89-91 | udp in any casing is udp, anything else is tcp |
| GateStore.Store.PruneExpired | src/sourceos_gate/store.py:104-111 | Exactly the expired grants go, the replay table stays, and the count returned is the number of rows gone |
| GateStore.Store.ListActive | src/sourceos_gate/store.py:113-135 | The unexpired grants, oldest installation first, ties in table order |
| GateStore.ActiveInOrder | src/sourceos_gate/store.py:113-135 | The listing holds exactly the unexpired grants, as often as the table, and installation times never decrease along it |
| GateStore.Store.ComputeActiveSets | src/sourceos_gate/store.py:137-150 | The loops compute the specified sets, each grant's targets with /32 dropped and its ports under its protocol |
| GateStore.InstallOpens | src/sourceos_gate/store.py:83-150 | An accepted installation adds to the active sets exactly the targets and ports it asks for, under its protocol, until it expires; refused or expired it makes no difference |
| GateStore.PruneInvisibleIff | src/sourceos_gate/store.py:104-135 | A prune at t changes what is listed at u if and only if some grant expires after u and not after t |
| GateStore.PruneInvisible | src/sourceos_gate/store.py:104-150 | With t no later than u, a prune at t is invisible to the listing and the sets at u |
| GateStore.ActiveSetsLeast | src/sourceos_gate/store.py:137-150 | The active sets are contained in exactly those triples that cover every unexpired grant's normalised targets and its ports under its protocol |
| Nft.Script | src/sourceos_gate/nft.py:74-86 | Whatever the kernel held, running the script leaves exactly the three wanted sets |
| Nft.ItemSays | src/sourceos_gate/nft.py:103-111 | What any item of an element list comes to: the value under elem and then val where there are such, printed, and nothing for a null |
| Nft.FindsLeftmost | src/sourceos_gate/nft.py:139-142 | The search finds the first place where the word, blanks, an equals sign, blanks and braces stand, and what is between the braces; nothing if and only if there is none |
| Nft.KernelSets.ApplySets | src/sourceos_gate/nft.py:65-86 | Root, then baseline, then the port conversions, then the script as one transaction; any failure leaves the kernel as it was |
| Json.IntTextOfDecimal | src/sourceos_gate/nft.py:71 | Converting a printed integer back gives the integer |
| Json.IntTextReads | src/sourceos_gate/nft.py:71 | int of a text is the number read for blanks around an optional sign and digits |
| Json.TruthyIff | src/sourceos_gate/daemon.py:67 | Exactly null, false, zero and the empty text, list and object are false |
| Text.StripMeans | src/sourceos_gate/nft.py:121 | Stripping takes blanks away at both ends and leaves none there |
| Text.DropSlash32First | src/sourceos_gate/store.py:143 | The leftmost /32 goes and what follows it is searched on its own |
| Nft.ParseElementsJson | src/sourceos_gate/nft.py:89-121 | The nested loops collect the specified texts; no list of entries means no answer |
| Nft.ParseIsUnion | src/sourceos_gate/nft.py:89-121 | Concatenated listings parse to the union of what they parse to |
| Nft.JsonInverts | src/sourceos_gate/nft.py:94-121 | Whatever supported shapes the elements take and whatever unrelated entries surround them, exactly their texts are found |
| Nft.TextInverts | src/sourceos_gate/nft.py:139-145 | Whatever text surrounds the element list and whatever blanks surround its pieces, exactly the stripped non-blank pieces are found |
| Nft.RenderedJsonReports | src/sourceos_gate/nft.py:124-132 | Any such JSON listing reports the rendered set |
| Nft.RenderedTextReports | src/sourceos_gate/nft.py:135-145 | Any such text listing reports the same set, and one without an element list the empty set, so the two parsers agree |
| Nft.VerifyIff | src/sourceos_gate/nft.py:155-166 | With the program running and whichever listing answers, verification succeeds if and only if the baseline is there and the normalised kernel sets are the wanted sets |
| Nft.ListSetIff | src/sourceos_gate/nft.py:124-152 | The JSON listing answers if it has a list of entries, the text listing otherwise, and nothing does if and only if neither can |
| Nft.VerifyStepIff | src/sourceos_gate/nft.py:155-166 | Whatever the commands answer: verification succeeds if and only if the program runs, the baseline is there, each set is listed, and the listed sets, normalised, are the wanted ones; a missing program or baseline is named |
| Nft.UnlistedFails | src/sourceos_gate/nft.py:135-138 | A set that neither command lists fails verification |
| Nft.TripShrinks | src/sourceos_gate/nft.py:70 | Normalising, stripping and normalising again never lengthens an address text, and keeps the length of a non-blank one if and only if it is settled |
| Nft.TrippedIff | src/sourceos_gate/nft.py:70 | A set of addresses survives the trip through the kernel and back as a set if and only if every one of them is settled: not blank, no blank at either end, no /32 left in it |
| Nft.ApplyThenVerifyIff | src/sourceos_gate/nft.py:65-166 | Applying sets and verifying them succeeds if and only if every address is settled and no port is negative |
| Nft.OrdinaryTargetSettles | src/sourceos_gate/store.py:143 | A non-empty blank-free target with at most one slash, not leading, is settled once normalised |
| Egress.EgressGate.Install | src/sourceos_gate/egress.py:36-60 | Tables, then audit, then apply if asked: a failing apply leaves the grant and its record in place |
| Egress.EgressGate.Prune | src/sourceos_gate/egress.py:62-73 | Tables, then audit, then apply if asked; the reply is the number removed unless the apply failed |
| Egress.EgressGate.Apply | src/sourceos_gate/egress.py:75-87 | Baseline, active sets, kernel, and a record only on success |
| Egress.EgressGate.Verify | src/sourceos_gate/egress.py:89-102 | Baseline, active sets, comparison, and a record only on success; the kernel is only read |
| Egress.ApplySays | src/sourceos_gate/egress.py:75-87 | An apply answers with the first of program, baseline, root and kernel that stands in its way and otherwise writes and records the active sets |
| Egress.VerifySays | src/sourceos_gate/egress.py:89-102 | A verification answers with success, and records the active sets, if and only if the program runs, the baseline is there, each set is listed, and the listed sets, normalised, are the active ones; otherwise it changes nothing |
| Egress.InstallGateSays | src/sourceos_gate/egress.py:36-58 | An installation is recorded exactly as asked, and answers with the reason if the tables refuse it |
| Egress.PruneGateSays | src/sourceos_gate/egress.py:62-71 | A prune takes exactly the expired grants and answers and records how many there were |
| Egress.EgressGate.Snapshot | src/sourceos_gate/egress.py:104-114 | The active sets, changing nothing |
| Egress.FailureLeaves | src/sourceos_gate/egress.py:36-87 | An operation fails having changed the gate if and only if it is a prune, or an installation the tables accept, with an apply that lacks the nft program, the baseline or root, or whose script the kernel refuses; the gate is then as the operation without apply leaves it and otherwise as it was; the kernel never changes and a port conversion never fails |
| EgressRuns.StepConserves | src/sourceos_gate/egress.py:36-102 | Each operation keeps the counts of the audit log and the tables equal and the grants' keys distinct and known, and never meets a duplicate grant |
| EgressRuns.RunConserves | src/sourceos_gate/egress.py:36-102 | Over every run from empty tables: replay rows = recorded installations = grants + sum of recorded removals, and every grant key is in the replay table |
| EgressRuns.AcceptedAtMostOnce | src/sourceos_gate/store.py:74-102 | For any clocks and prunes, a pair is accepted once if the replay table gained it during the run and otherwise never |
| EgressRuns.AcceptedIff | src/sourceos_gate/store.py:83-102 | In any run from empty tables, a presentation is accepted if and only if it is unexpired and the pair was never accepted before |
| EgressRuns.AuditRebuildsActive | src/sourceos_gate/egress.py:36-73 | At any time no prune of the run looked past, the active sets are those of the unexpired recorded installations: the audit log alone rebuilds them |
| KernelRuns.ApplySetsKernel | src/sourceos_gate/egress.py:75-87 | After a successful apply the kernel holds exactly the live grants' addresses and ports |
| KernelRuns.AppliedHas | src/sourceos_gate/nft.py:70-72 | Element by element: the addresses in the kernel are the live targets, normalised by the store and again by the apply, blank ones left out, and the ports those of live grants of the protocol |
| KernelRuns.StepKernel | src/sourceos_gate/egress.py:36-102 | An operation changes the kernel sets only by applying, and then to the live grants of that moment |
| KernelRuns.KernelIsLastApply | src/sourceos_gate/egress.py:75-87 | At any point of any run, with any clocks, the kernel sets are exactly what the grants live at the last successful apply allowed, in the tables right after it; before any apply they are as they were found |
| KernelRuns.KernelProvenance | src/sourceos_gate/egress.py:75-87 | Over every run with any clocks, each kernel element comes from an installation that was recorded and unexpired when sets were last applied; before any, the kernel is as it was found |
| KernelRuns.ActiveStaysAllowed | src/sourceos_gate/egress.py:62-102 | Once applied, whatever is active at a later time is in the kernel until a grant is accepted, through any prunes, failures and further applies |
| KernelRuns.ApplyThenVerify | src/sourceos_gate/egress.py:75-102 | After a successful apply and before any grant expires, verification succeeds if and only if every live target is settled once normalised and every live port is non-negative |
| KernelRuns.VerifyAfterRunIff | src/sourceos_gate/egress.py:75-102 | At any point of any run whose last successful apply was of settled targets and non-negative ports, verification succeeds if and only if the baseline is there and what is active now is what was active then |
| KernelRuns.OrdinaryGrantsVerify | src/sourceos_gate/egress.py:75-102 | For ordinary targets and non-negative ports, verification after apply succeeds |
| Requests.ParseInverts | src/sourceos_gate/protocol.py:5-10 | Every request the protocol describes, written as JSON, is understood as that request with its id |
| Requests.ParseSays | src/sourceos_gate/daemon.py:45-54 | A line that is no object is an error without an id; an object's id is echoed whatever else is wrong; a method that is no text or parameters that are no object are errors, and absent or false parameters are an empty object |
| Requests.MethodsSay | src/sourceos_gate/daemon.py:56-82 | Each of the six names asks for its operation, any other is an error, and a prune applies if and only if it is asked to |
| Requests.InvalidIff | src/sourceos_gate/daemon.py:61 | An install is invalid if and only if one of its six fields is missing |
| Requests.InstallSays | src/sourceos_gate/daemon.py:62-70 | With its six fields, an install that cannot be converted is an error, and one that can asks for what the fields come to, with an apply if and only if one is asked: never when apply is absent, null or false |
| Requests.InstallBack | src/sourceos_gate/daemon.py:60-70 | The required fields and apply, as a client writes them, are each taken from their own key and converted back |
| Daemon.Dispatch | src/sourceos_gate/daemon.py:52-84 | The request reaches the gate operation it names, with the response that goes with its outcome |
| Daemon.HandleClient | src/sourceos_gate/daemon.py:33-87 | Reading to the end of input gives the specified responses, one for each line that is not blank, and leaves the gate as serving those lines does |
| DaemonRuns.Serialisable | src/sourceos_gate/daemon.py:33-87 | For any interleaving the gate is the fold of the served lines in dispatch order, and each connection has been written exactly that serial run's answers to its lines |
| DaemonRuns.SoleClient | src/sourceos_gate/daemon.py:33-87 | While one connection has the daemon to itself its turns give the responses and the gate of the client loop over the lines it reads, and no other connection is touched |
| DaemonRuns.OneAnswerPerLine | src/sourceos_gate/daemon.py:35-87 | At every point of any interleaving a connection has one response for each non-blank line read, in order, with that line's id |
| DaemonRuns.LinesAreRuns | src/sourceos_gate/daemon.py:52-84 | Serving lines is a run of gate operations, so all results about runs hold for the daemon |
| DaemonRuns.ClientsConserve | src/sourceos_gate/daemon.py:33-87 | Over any interleaving from empty tables the counts stay conserved and each pair is accepted at most once across all clients |
| DaemonRuns.ErrorsLeave | src/sourceos_gate/protocol.py:57-70 | No error changes the kernel. A response coded replay, expired or invalid leaves the gate unchanged; so does internal, unless the request has committed and its apply cannot run the nft program, and then it is as the same request without apply leaves it and differs; one coded baseline_missing, nft or gate leaves it as the request without apply; there are no other codes |
| DaemonRuns.CodesSay | src/sourceos_gate/protocol.py:57-70 | Which request gets which code: expired and replay by the installation's expiry and pair, invalid by its shape, the others by the first of program, baseline, root and kernel that an apply or verification lacks |
| DaemonRuns.VerifyAnswered | src/sourceos_gate/daemon.py:79-81 | A verify is answered ok if and only if the listed sets are the active ones, and nft if of all it needs only that fails |
| DaemonRuns.SuccessSays | src/sourceos_gate/daemon.py:56-81 | What each success answers, a prune with the number of expired grants, with the request's id |
| Nulls.DropsExactlyNulls | tools/sourceos_delta_surface.py:148-153 | Exactly the null parts go; every other part, at any depth, stays at its place and in order |
| Nulls.DropNullsIdempotent | tools/sourceos_delta_surface.py:148-153 | Dropping nulls twice is dropping them once, and changes nothing if and only if there is none |
| Nulls.DropNullsFixes | tools/sourceos_truth_surface.py:184-189 | The result holds no null at any depth, and a null-free value is left alone |
| Seals.ComputeMerkleRoot | tools/sourceos_truth_surface.py:94-100 | The running hash digests the canonical text followed by every blob |
| Seals.SealCertifies | tools/sourceos_delta_surface.py:157-163 | For any fields, stripping both seals from the sealed document gives back what was hashed, and recomputing gives the same two values; no other entry changes |
| Seals.CertifiesReads | tools/sourceos_delta_surface.py:57-62 | A document certifies if and only if its merkleRoot and signature are, under their labels, the digests of the canonical text of everything else, with the blobs after it for the root |
| Seals.SealsBind | tools/sourceos_delta_surface.py:57-62 | Two certified documents with the same signature have the same canonical text, or two texts with the same digest are shown; likewise for the root with its blobs |
| Seals.ReorderedCertifies | tools/sourceos_delta_surface.py:32-33 | If canonical text ignores key order, a certified document still certifies with the keys of its objects in any other order, at any depth |
| Seals.WrittenCertifies | tools/sourceos_delta_surface.py:48-50 | So a certified document written with its keys sorted certifies as it stands in the file |
| Surface.SortedSet | tools/sourceos_delta_surface.py:79 | The set's elements in order, each once |
| Surface.ComputeGate | tools/sourceos_delta_surface.py:73-113 | Starting from permit and taking it back reason by reason ends in the decision that PermitIff characterises; none if and only if a section or an entry has a shape that raises |
| Surface.PermitIff | tools/sourceos_delta_surface.py:87-113 | permit if and only if there are no reasons, which is if and only if required evidence is present, the score is within the threshold and any required approval was given; deny exactly for the last two; missing is required minus present |
| SurfaceShows.ReasonsSay | tools/sourceos_delta_surface.py:87-101 | One reason for each missing piece of evidence, in order and by name, then one with both numbers if the score exceeds the threshold, then one for a required approval that is not there |
| SurfaceShows.RiskSays | tools/sourceos_delta_surface.py:81-85 | Whatever governance does not say is as the command line says, whatever it says is converted, and only a score or threshold that is no number raises |
| SurfaceShows.SectionSays | tools/sourceos_delta_surface.py:75 | A section that is absent or false is empty, an object is itself, and anything else raises |
| SurfaceShows.TextSetSays | tools/sourceos_delta_surface.py:65-70 | Null is no text, a text is one, and a list of texts is the set of them |
| Surface.BuildSurface | tools/sourceos_truth_surface.py:128-209 | Assembling, dropping nulls, stripping and sealing in place computes the surface that SurfaceDecides is about |
| Surface.BuildDelta | tools/sourceos_delta_surface.py:116-163 | Assembling, dropping nulls, stripping and sealing in place computes the delta that DeltaCertifies is about; no delta if the decision raises |
| Surface.SurfaceDecides | tools/sourceos_truth_surface.py:108-209 | For any surface as built, the delta's evidence panel, missing evidence included, is the surface's own, so is its risk, and the decision is permit if and only if the surface misses nothing, is within its threshold and has its approval |
| Surface.PanelSays | tools/sourceos_truth_surface.py:108-116 | The panel's required, present and missing lists hold exactly the non-empty texts required, present, and required but not present |
| Surface.DeltaCertifies | tools/sourceos_delta_surface.py:116-163 | An emitted delta certifies itself, is free of nulls once unsealed, and shows the decision it was built on |
| SurfaceShows.DecisionReads | tools/sourceos_delta_surface.py:103-113 | Every part of a decision is shown under its own name |
| SurfaceShows.DeltaShows | tools/sourceos_delta_surface.py:103-145 | Looked up in the emitted delta, the gate is a permit without reasons if and only if required evidence is present, the score is within the threshold and any required approval was given, a denial for the latter two, and shows the numbers and flags it was decided on |
| SurfaceShows.DeltaOfSurfaceShows | tools/sourceos_truth_surface.py:108-209 | Looked up in the delta of any surface as built, the gate is of the surface's own evidence and risk, and its missing evidence is the list under missing in the surface's evidence |

## Left out

- Nft.Script: the commands are modelled as values, as intended; the code writes two closing braces after each element list (src/sourceos_gate/nft.py:80-84), which the kernel's parser is not modelled to reject or accept.
- Nft.JsonInverts: only bare, `elem` and `elem.val` elements; prefixes and ranges as JSON objects have no case in the parser, and a listing whose JSON is not an object raises before the text fallback.
- Nft.TextInverts: the word `elements` must not occur before the element list, and pieces hold no comma or closing brace (`Nft.FindsLeftmost` speaks of any text).
- Json.IntTextOfDecimal: `int()` on text covers ASCII digits, sign and blanks, not digit separators or other scripts' digits; `isdigit` likewise. JSON numbers are integers, so floating point and NaN are not modelled.
- GateStore.Store.InstallGrant: SQLite is a map and a sequence of rows with rollback; integers beyond 64 bits, which SQLite refuses, are accepted, and lower-casing is ASCII.
- GateStore.Store.ListActive: rows with the same installation time come in table order, which SQL does not promise.
- Snapshots.DevSnapshotter.Snapshot: empty directories, symbolic links and the umask are not modelled; a partial copy is an arbitrary set of files.
- Snapshots.DevSnapshotter.Prune: a removal happens or does not; partly removed directories are not modelled.
- Replicate.Receive: name cleaning, directories in the way, and opening an existing file that is read-only are not modelled.
- Retain.Retainer.Converge: needs a store that lists each handle once (`Snapshots.ListingDistinct` shows the directory store does) and the same time for every tick, as the code passes it.
- Governance.ReceiptLog.Append: sequence numbers do not wrap at 2^64; the mutex is modelled as atomic calls.
- Mount.InceptionFS.Open: the handle is the file as it is when opened; what is later done through it is an `Edit`. Opening a directory fails here, which some backends allow.
- Mount.InceptionFS.ReadDir: entries come as a set; the order backends give them in, and the mode and times of directories, are not modelled.
- Mount.InceptionFS.Rename: renames and removes files, not directories, and paths are not cleaned of `.` and `..`.
- StoreRuns.StoreAndLedgerAgreeIff: only the root view has a snapshotter, as `WithSnapshotter` is used.
- Egress.EgressGate.Apply: nothing else changes the kernel sets between the gate's own operations, and an audit write follows its operation atomically; audit timestamps and file layout are not modelled.
- DaemonRuns.ErrorsLeave: database and audit-file failures, which also answer internal, are not modelled; of foreign programs only a missing nft is.
- Daemon.HandleClient: lines are decoded text within the reader's limit; sockets, systemd activation and broken connections are not modelled, and error messages are left out of responses, only their codes kept.
- Surface.BuildDelta: the identifying fields, references and metrics around the gate are arbitrary fields here; their own assembly is straight-line.
- Surface.ComputeGate: evidence lists hold text; lists of numbers, which the code also sorts, answer as if they raised.
- SHA-256, hex, RFC 3339 formatting, tar framing and JSON text are abstract functions.
- Btrfs backends, the NFS face, promoted billy methods and open file handles (an arbitrary `Edit` in `MountRuns`) are foreign code.
- `cosa/`, the CLIs, packaging, Nix, shell and documentation, and the incident and evaluation tools are glue without invariants of their own.
