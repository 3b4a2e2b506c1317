# Verified model of the lakehouse's stores, sessions, streams and front end

A Dafny model of the parts of the repository whose logic is its own: the portal's file stores, the
desktop's key management and stream bridge, hydrofoil's sessions, statements and query stream, the SQL
front end, and a few pieces of arithmetic and recursion the rest leans on. Code that changes things
step by step is modelled by classes and methods with loops; each method is tied to a function of its
inputs or of the old state, and the properties are proved of those functions as lemmas, over all
inputs, all runs or all interleavings. `dafny verify dfyconfig.toml` checks everything.

## The modules

| modules | what they model |
|---|---|
| `PathNames`, `FileTree`, `TreeWalk`, `LocalStore` | the local "home" store: the path sandbox, a directory tree with the operating-system calls made on it, and the stack-driven walk |
| `MemoryStore`, `StoreAgreement` | the flat in-memory store, and when it gives the same answers as the tree |
| `ListingOrder`, `Paging`, `Decimal`, `PiecewiseReading` | listings, their windows, index tokens and resumption |
| `VolumePaths`, `Routing`, `Places`, `Transfers` | volume paths, the router, where a path leads, byte ranges and upload assembly |
| `KeyVault` | the key-encryption key: two secret stores and a record |
| `ChannelBridge`, `QueryStream` | the push-to-pull bridge and the bounded query stream, over all interleavings |
| `SessionStore`, `StatementRuns`, `GroupClosure` | ephemeral sessions and their sweeper, statements and run identity, group closure and its cache |
| `SqlSyntax`, `SqlParser`, `SqlRoundTrip`, `SqlClauses` | the statement parser: what it takes off the tokens, the cursor code, and printing and parsing back |
| `Fnv`, `JobNames`, `Notebooks`, `EnvIds`, `TypeConversion` | hashing and the names built on it, notebook sessions, environment ids, type conversion |
| `Results`, `Sequences`, `AsciiText` | shared vocabulary |

## What turned out false, and the exact condition

- Following page tokens ends exactly when the limit is at least one or nothing is listed
  (`Paging.PagingEndsIff`).
- The tree and the flat store show the same children exactly when no child directory is without files
  below it (`StoreAgreement.ChildrenAgreeIff`, with `StoreAgreement.EmptyFolderParts`); the flat store's
  children have distinct paths exactly when no file is also a folder of others
  (`StoreAgreement.HierarchyDistinctIff`), and piecewise reading is complete for every page size exactly
  then (`ListingOrder.ResumeCompleteIffDistinct`; `StoreAgreement.FileIsFolderLoses` is a loss).
- The volume store's capped and resumed hierarchical listing is the requested window exactly in the
  cases of `VolumePaths.CapBeforeResumeIff`; `VolumePaths.CapBeforeResumeLoses` is a loss.
- Resuming a home listing through the router is right for every listing exactly after the empty string, a
  single slash, or a string that does not start with one (`Routing.RoutedResumeSafeIff`), so never after a
  path it listed; on one listing it is right exactly when no entry lies between the path with its `/home`
  and without (`Routing.RoutedResumeRightAfterHomeIff`). `Routing.RoutedResumeLoses` is a concrete loss.
- The two stores stay on the same files exactly unless the deleted home is replaced by a file of its own,
  which the flat store refuses (`StoreAgreement.StepAgreesIff`, `StoreAgreement.RunsAgree`, with the run
  that parts them in `StoreAgreement.RootWriteParts`).
- A key record that cannot be read counts as none. So the provider lock holds exactly unless the lock
  could not read the record (`KeyVault.ProviderLockedIff`), configuring keeps the record true of the stores
  exactly unless it could not read a biometric record while only the biometric store held the key
  (`KeyVault.ConfigureAgreesIff`), and `status` is true exactly in the cases of
  `KeyVault.StatusTellsTheTruth`; `KeyVault.UnreadRecordMisleads` is the state where all three fail. The
  key itself is never lost.
- `rehome` undoes `route` exactly on canonically written home paths (`Routing.RehomeUndoesRouteIff`); a
  doubled slash is lost (`Routing.RehomeForgetsSlash`).
- A script is accepted exactly when two semicolons follow every statement with clauses that is not the
  last, and one follows every `DROP` (`SqlRoundTrip.ScriptParsesIff`); `VACUUM a; VACUUM b` is refused.
- "Two different volume paths never collide" (`node/desktop/src-tauri/src/notebook.rs:101-103`) is false:
  `Fnv.TwoPathsCollide` gives two home paths that share a working copy. `Fnv.SharedIff` says exactly when
  paths do, `Fnv.OneByteNeverShares` when they never do, and `Notebooks.OpenTakesOverIff` what it costs.
- Nor does one file keep to one name: a doubled slash behind `/home` leads to the same file under another
  (`Notebooks.DoubledSlashSplits`), so a notebook's file can be overwritten under another name while it is
  open (`Notebooks.OverwrittenUnderAnotherName`). Session and working copy stay its own
  (`Notebooks.OthersUndisturbed`); the file stays exactly unless some act syncs a session whose path leads
  to the same place and writes something else (`Notebooks.FileStaysIff`).
- A rejection with an empty message reads as a normal end of a bridged stream
  (`ChannelBridge.EndsComplete`), and an abort does not wake a waiting one
  (`ChannelBridge.AbortDoesNotWake`).
- From Connect to Arrow and back is exact only as `TypeConversion.ConnectRoundTripIff` says.

Where code and documentation disagree the model follows the code: `normalize_whitespace` says it
collapses ASCII whitespace, but splits at every Unicode White_Space character
(`crates/hydrofoil/src/lineage.rs:309-312`).

## Modelling decisions

- Kept abstract: plans, fresh UUIDs (numbers never handed out before), token hashes, which strings are
  URLs, the statements the SQL parser underneath accepts, whether a disk or store operation succeeds.
- Error messages are not modelled, only which kind of failure it is; a failed parse is `None`.
- In `KeyVault` every operation on a secret store or on the record may fail, reading included, and a failed
  one leaves its store as it was; reading the record fails without notice. Stopping the process between
  two operations leaves the stores as a failure of the next operation would, because every failure ends
  the command. A record write that fails or is cut short may leave an unreadable record, which reads as
  none.
- Writing the environments registry, or a notebook back to the home store, empties the file first, so a
  write that fails may leave it unreadable or with a beginning of the contents.
- A write to a local file is taken to reach it at once; buffering is not modelled. A directory can be
  opened and positioned for reading, as on Unix; only reading a byte of it fails.
- An object store is taken to refuse ranges that name no byte and to clip the others at the end.
- The notebook theorems hold for any reading of paths by the stores (also one that folds case or follows
  links); `Places.PlaceOf` is the one the router and the two stores spell out. The location below a
  volume is taken to be its segments.
- Text in `Fnv` and `Notebooks` is given as its UTF-8 bytes, one character a byte.

## Model

| member | source | states |
|---|---|---|
| PathNames.ResolveStaysInside | crates/portal/src/store/local.rs:46-61 | a logical path is accepted exactly when no segment is "..", and the place it names has plain components only, so it lies below the root |
| PathNames.ResolveAbs | crates/portal/src/store/local.rs:46-61 | printing a place below the root and resolving it gives the place back |
| PathNames.ResolveChild | crates/portal/src/store/local.rs:291-298 | for every accepted path, the logical path of a child resolves to the child |
| PathNames.PrefixOfAbs | crates/portal/src/store/memory.rs:419-445 | a scan prefix with its slash is a prefix of a key exactly when the component path is a proper prefix |
| FileTree.OpenForWriteKeeps | crates/portal/src/store/local.rs:118-140 | a write is refused exactly at a directory or below a file; otherwise only the target and missing ancestors change |
| FileTree.MkdirAllKeeps | crates/portal/src/store/local.rs:209-222 | creating a directory chain adds directories on the way only and keeps every node |
| FileTree.RemoveFile | crates/portal/src/store/local.rs:202-207 | deleting a file keeps the tree well formed |
| FileTree.RemoveEmptyDir | crates/portal/src/store/local.rs:224-243 | only an empty directory is deleted, which keeps the tree well formed |
| FileTree.LogicalInjective | crates/portal/src/store/local.rs:291-298 | different nodes below one directory get different logical paths |
| TreeWalk.WalkStep | crates/portal/src/store/local.rs:338-351 | one round of the walk keeps: every directory reached is read or waiting, none twice, and the files found are exactly the children of the directories read |
| TreeWalk.WalkEnds | crates/portal/src/store/local.rs:338-351 | when the stack is empty exactly the files below the start have been found |
| LocalStore.LocalFileStore.AppendChunks | crates/portal/src/store/local.rs:118-140 | the file holds the chunks before the first broken one, and the count is their total when none is |
| LocalStore.LocalFileStore.PutFileStream | crates/portal/src/store/local.rs:118-140 | the whole new tree, the count written, and each error, for every path and chunk sequence; a broken upload leaves what had arrived |
| LocalStore.LocalFileStore.PutFile | crates/portal/src/store/local.rs:108-117 | the file holds exactly the contents and nothing else changed, or the error and nothing changed |
| LocalStore.LocalFileStore.ReadFile | crates/portal/src/store/local.rs:142-174 | the bytes of the range, clipped at the end, or the error of a missing file or of reading from a directory; no byte asked of a directory is no error |
| LocalStore.LocalFileStore.DeleteFile | crates/portal/src/store/local.rs:202-207 | exactly that file goes, or an error and nothing changed |
| LocalStore.LocalFileStore.CreateDirectory | crates/portal/src/store/local.rs:209-222 | the chain of directories exists, or an error and nothing changed |
| LocalStore.LocalFileStore.DeleteDirectory | crates/portal/src/store/local.rs:224-243 | an empty directory goes; a full one is a failed precondition |
| LocalStore.LocalFileStore.ReadChildren | crates/portal/src/store/local.rs:303-334 | the immediate children, each once, strictly ascending by path; missing lists as empty, a file is an error |
| LocalStore.LocalFileStore.Walk | crates/portal/src/store/local.rs:338-351 | the walk terminates on every tree and yields each file below the path exactly once |
| LocalStore.LocalFileStore.ListFilesOpts | crates/portal/src/store/local.rs:271-285 | the requested window of the sorted listing, recursive or not, or the error |
| LocalStore.LocalFileStore.ListDirectory | crates/portal/src/store/local.rs:262-269 | the requested page of the sorted children |
| MemoryStore.MemoryFileStore.PutFile | crates/portal/src/store/memory.rs:227-245 | the key maps to the contents and nothing else changed; the empty path is refused |
| MemoryStore.MemoryFileStore.PutFileStream | crates/portal/src/store/memory.rs:247-261 | a broken upload leaves the store as it was; an intact one stores all chunks in order |
| MemoryStore.MemoryFileStore.ReadFile | crates/portal/src/store/memory.rs:263-285 | the bytes of the range; a start past the end is an error, unlike in the local store |
| MemoryStore.MemoryFileStore.DeleteFile | crates/portal/src/store/memory.rs:309-316 | exactly that key goes, or not-found |
| MemoryStore.MemoryFileStore.CreateDirectory | crates/portal/src/store/memory.rs:318-332 | the directory is recorded; the empty path is refused |
| MemoryStore.MemoryFileStore.DeleteDirectory | crates/portal/src/store/memory.rs:334-365 | only a recorded directory with nothing under its prefix goes |
| MemoryStore.MemoryFileStore.ListFilesOpts | crates/portal/src/store/memory.rs:419-485 | the window of the listing that holds every scanned entry exactly once in order, each subfolder once |
| MemoryStore.MemoryFileStore.ListDirectory | crates/portal/src/store/memory.rs:380-417 | the page of the listing that holds every direct child exactly once in order, a directory before a file of the same path |
| MemoryStore.OrderedUnique | crates/portal/src/store/memory.rs:413-416 | a listing in order is fixed by its entries, so successive pages come from one listing |
| StoreAgreement.DeepAgrees | crates/portal/src/store/local.rs:271-285 | over the same files, the tree's recursive listing equals the flat prefix scan, entry for entry |
| StoreAgreement.ChildrenAgreeIff | crates/portal/src/store/memory.rs:445-473 | the hierarchical views agree if and only if every child directory has a file somewhere below it |
| StoreAgreement.EmptyFolderParts | crates/portal/src/store/memory.rs:445-473 | a tree with an empty directory, which it lists and the flat store does not |
| StoreAgreement.StepAgreesIff | crates/portal/src/store/memory.rs:227-245 | an accepted operation keeps the two stores on the same files if and only if it is no write at the root |
| StoreAgreement.RunsAgree | crates/portal/src/store/mod.rs:128-211 | after every run of operations the stores hold the same files exactly unless the root is a file, and their recursive listings are the same in every case |
| StoreAgreement.RootWriteParts | crates/portal/src/store/memory.rs:233-235 | the run that parts them: the empty home deleted and a file written in its place |
| StoreAgreement.WriteAcceptedIff | crates/portal/src/store/local.rs:118-140 | the tree takes a write exactly when the flat keys stay prefix-free and no directory stands in the file's place |
| StoreAgreement.SharedKeysPrefixFree | crates/portal/src/store/local.rs:118-140 | no shared key continues another |
| StoreAgreement.HierarchyDistinctIff | crates/portal/src/store/memory.rs:445-473 | two entries of the hierarchical view share a path exactly when a file is also a folder of other files |
| StoreAgreement.FileIsFolderLoses | crates/portal/src/store/memory.rs:445-484 | the files k and k/x: after a page with the file k the folder k is never listed |
| StoreAgreement.ListBoth | crates/portal/src/store/mod.rs:203-211 | asked the same, both stores answer the same, window included |
| ListingOrder.AscendingUnique | crates/portal/src/store/mod.rs:203-211 | a strictly ascending listing is fixed by the set of its entries |
| ListingOrder.AnswersUnique | crates/portal/src/store/mod.rs:203-211 | a listing call has one right answer |
| ListingOrder.SortAscends | crates/portal/src/store/local.rs:277-284 | sorting entries with distinct paths gives each once, strictly ascending |
| ListingOrder.SortedWindowAnswers | crates/portal/src/store/local.rs:277-284 | sort, resume filter and cap give the window of the listing |
| ListingOrder.ResumeComplete | crates/portal/src/store/memory.rs:475-484 | with cap n of at least 1, resuming after the last path seen ends and gives every entry exactly once, in order |
| ListingOrder.ResumeCompleteIffDistinct | crates/portal/src/store/memory.rs:475-484 | that holds for every cap if and only if no two entries share a path |
| PiecewiseReading.ReadLocal | crates/portal/src/store/local.rs:271-285 | a caller reading the local store n entries at a time terminates with exactly the whole listing |
| PiecewiseReading.ReadMemory | crates/portal/src/store/memory.rs:419-485 | a caller reading the memory store's recursive listing n entries at a time terminates with exactly the whole listing |
| PiecewiseReading.FlatListingAscends | crates/portal/src/store/memory.rs:419-485 | the memory store's recursive listing has no path twice |
| PiecewiseReading.FollowLocal | crates/portal/src/store/local.rs:262-269 | a caller following the local store's index tokens terminates with every child exactly once |
| PiecewiseReading.FollowMemory | crates/portal/src/store/memory.rs:380-417 | a caller following the memory store's index tokens terminates with every entry exactly once |
| Decimal.ParseOfPrint | crates/portal/src/store/mod.rs:64-68 | a printed token parses back to its number whenever it fits |
| Paging.Paginate | crates/portal/src/store/mod.rs:63-80 | the page at the token's index and the next token, absent at the end |
| Paging.PagesComplete | crates/portal/src/store/mod.rs:63-80 | with a limit of at least 1, following the tokens ends, the pages concatenate to the list and all but the last are full |
| Paging.PagingEndsIff | crates/portal/src/store/mod.rs:74-76 | following the tokens ends if and only if the limit is at least 1 or the list is empty |
| VolumePaths.ParseAbsolute | crates/portal/src/store/unity.rs:420-470 | every accepted path, printed in its absolute form, parses to the same value |
| VolumePaths.RelativizeAbsoluteIff | crates/portal/src/store/unity.rs:420-445 | taking the prefix off again gives the relative path back exactly when it has no leading slash |
| VolumePaths.CapBeforeResumeIff | crates/portal/src/store/unity.rs:330-339 | capping before resuming gives the requested window exactly in the stated cases |
| VolumePaths.CapBeforeResumeLoses | crates/portal/src/store/unity.rs:330-339 | two files, the first already read, cap one: the second is never listed |
| Routing.RoutesOnce | crates/portal/src/store/routing.rs:47-76 | each path goes to exactly one store or is refused, and the home store is handed rooted paths |
| Routing.RehomeUndoesRouteIff | crates/portal/src/store/routing.rs:47-86 | rehoming undoes routing if and only if the home path is canonical |
| Routing.RehomeForgetsSlash | crates/portal/src/store/routing.rs:78-86 | a path routed with a doubled slash comes back with one |
| Routing.ListedChildIsBelow | crates/portal/src/store/routing.rs:210-224 | a listed child of a canonical home path comes back as that path's child |
| Routing.RoutedResumeSafeIff | crates/portal/src/store/routing.rs:210-224 | over every string to resume after: the router is right for all home listings exactly after the empty string, one slash, or a string with no slash in front |
| Routing.RoutedResumeRightIff | crates/portal/src/store/routing.rs:210-224 | on one listing it is right exactly when every entry is after the string with its prefix if and only if it is without |
| Routing.RoutedResumeRightAfterHomeIff | crates/portal/src/store/routing.rs:210-224 | after a path below /home that means: no entry lies between that path with the prefix and without |
| Routing.RoutedResumeEntries | crates/portal/src/store/routing.rs:210-224 | exactly which entries are answered and which were asked for, hence which are lost and which are repeated |
| Routing.RoutedResumeLoses | crates/portal/src/store/routing.rs:214-214 | a concrete listing from which an entry is lost |
| Places.HomeFileSpelled | crates/portal/src/store/local.rs:46-61 | every place below home is reached under its canonical path |
| Places.VolumeFileSpelled | crates/portal/src/store/unity.rs:397-470 | every accepted volume path leads where its absolute form leads |
| Places.DoubledSlashSamePlace | crates/portal/src/store/routing.rs:47-76 | a doubled slash behind /home leads to the same place, whatever follows |
| Transfers.AssembleUpload | node/desktop/src/tauri-files.ts:236-262 | the body is all chunks in order without gap; path and content type are the first frame's |
| Transfers.RangesAgreeIff | crates/portal/src/store/unity.rs:472-493 | an answered range gives the bytes the local store reads; refused are exactly negative numbers and ranges without a byte |
| Transfers.PiecesMakeWhole | crates/portal/src/store/local.rs:142-174 | reading n bytes at a time gives the whole file |
| KeyVault.NeverLost | node/desktop/src-tauri/src/kek.rs:161-214 | once minted, a key is held unchanged in every later state, whichever operations fail and wherever the run is cut |
| KeyVault.MintedOnce | node/desktop/src-tauri/src/kek.rs:333-346 | any two keys ever held are the same |
| KeyVault.NeverTwoKeys | node/desktop/src-tauri/src/kek.rs:333-346 | from empty stores every state holds no key or one |
| KeyVault.ResumedRun | node/desktop/src-tauri/src/kek.rs:204-214 | a run cut anywhere and resumed is a run |
| KeyVault.StatusTellsTheTruth | node/desktop/src-tauri/src/kek.rs:351-369 | while the record agrees, the status is true of the stores, without reading the biometric one, exactly when the record was read or its loss hides neither a remote provider nor a biometric key |
| KeyVault.ConfigureAgreesIff | node/desktop/src-tauri/src/kek.rs:377-399 | configuring keeps the record in agreement exactly unless a biometric record went unread while only the biometric store held the key |
| KeyVault.ProviderLockedIff | node/desktop/src-tauri/src/commands.rs:525-533 | a recorded provider stays exactly unless the lock could not read it and another was asked for |
| KeyVault.UnreadRecordMisleads | node/desktop/src-tauri/src/kek.rs:120-123 | one state and one failed read in which record, status and lock all go wrong, and the key is still held |
| KeyVault.KeyStore.ReadKey | node/desktop/src-tauri/src/kek.rs:164-171 | a found key is the key held; missing means both stores are empty |
| KeyVault.KeyStore.Ensure | node/desktop/src-tauri/src/kek.rs:333-346 | every success returns the key held, minting only into empty stores |
| KeyVault.KeyStore.ReportStatus | node/desktop/src-tauri/src/kek.rs:351-369 | the status follows from what was seen of the record and one probe of the plain store |
| KeyVault.KeyStore.ConfigureUnlocked | node/desktop/src-tauri/src/kek.rs:377-399 | a success leaves exactly the new record over the key held, with the flag of the record it saw |
| KeyVault.KeyStore.ConfigureProvider | node/desktop/src-tauri/src/commands.rs:516-535 | the lock refuses exactly a seen record of another provider; agreement and provider are kept unless a record write failed or a record went unread |
| KeyVault.KeyStore.Protect | node/desktop/src-tauri/src/kek.rs:204-214 | the key ends in exactly the chosen store, or a failure leaves it where the record says |
| KeyVault.KeyStore.MoveKey | node/desktop/src-tauri/src/kek.rs:408-440 | a success leaves the key in exactly the chosen store with the record in agreement, even after an unread record; a seen remote record is refused |
| KeyVault.KeyStore.Run | node/desktop/src-tauri/src/kek.rs:333-440 | over every serial run with any operation failing, all keys handed out are the one key held at the end; record and provider stay true while no record write failed and none went unread |
| ChannelBridge.NextKeeps | node/desktop/src/tauri-transport.ts:192-242 | every event keeps: yielded and queued are what was sent, and a parked generator has nothing to yield |
| ChannelBridge.NothingLost | node/desktop/src/tauri-transport.ts:192-242 | that holds at every moment of every interleaving, so no wake-up is lost |
| ChannelBridge.EndsComplete | node/desktop/src/tauri-transport.ts:225-242 | at its own end everything sent had been yielded, and it threw exactly when a non-empty failure came |
| ChannelBridge.ReachesEnd | node/desktop/src/tauri-files.ts:219-233 | once the command has settled, a pulling client reaches the end within the queue's length plus two steps |
| ChannelBridge.AbortDoesNotWake | node/desktop/src/tauri-transport.ts:226-240 | an abort alone leaves a parked generator parked; a push, the end or a rejection wakes it |
| ChannelBridge.Stream.OnMessage | node/desktop/src/tauri-transport.ts:200-203 | the callback is the machine's push |
| ChannelBridge.Stream.OnComplete | node/desktop/src/tauri-transport.ts:215-218 | the resolution is the machine's completion |
| ChannelBridge.Stream.OnFailure | node/desktop/src/tauri-transport.ts:219-223 | the rejection is the machine's failure |
| ChannelBridge.Stream.OnAbort | node/desktop/src/tauri-transport.ts:227-227 | the signal only sets the flag the outer loop looks at |
| ChannelBridge.Stream.PullNext | node/desktop/src/tauri-transport.ts:225-242 | one pull is the machine's pull, yielding the next chunk in order |
| ChannelBridge.Stream.Resume | node/desktop/src/tauri-transport.ts:237-240 | resuming after a wake-up is the machine's wake |
| ChannelBridge.Stream.Finish | node/desktop/src/tauri-transport.ts:232-236 | at the end all is delivered, and it throws exactly on failure |
| QueryStream.Drive | crates/hydrofoil/src/query_service.rs:122-183 | for every execution and every point at which the receiver goes away, the driver sends the expected messages up to there |
| QueryStream.ExpectedShape | crates/hydrofoil/src/query_service.rs:142-180 | row counts sum to the rows produced, an error or schema message is last, a schema-only message is sent exactly when there is no batch |
| QueryStream.NextKeeps | crates/hydrofoil/src/query_service.rs:112-187 | seen, buffered and pending make up the expected stream across every event |
| QueryStream.SeenIsPrefix | crates/hydrofoil/src/stream.rs:155-209 | under every schedule the consumer sees a prefix and at most two messages are buffered |
| QueryStream.EndIsComplete | crates/hydrofoil/src/query_service.rs:142-183 | a consumer that stays sees exactly the batches up to the first error, or one schema-only message |
| QueryStream.EveryEventProgresses | crates/hydrofoil/src/query_service.rs:122-183 | every event but a drop lowers a measure, so every schedule ends |
| QueryStream.NeverStuck | crates/hydrofoil/src/stream.rs:155-209 | before the end something can always happen |
| SessionStore.Fingerprint | crates/hydrofoil/src/engine.rs:447-457 | a fingerprint holds no colon |
| SessionStore.KeyInjective | crates/hydrofoil/src/engine.rs:523-527 | the session key decodes uniquely, whatever colons the uid holds |
| SessionStore.AnswersMatch | crates/hydrofoil/src/engine.rs:518-537 | in every interleaving of lookups, builds, inserts, failures and sweeps, every answer carries the asked uid and token |
| SessionStore.StaysStored | crates/hydrofoil/src/engine.rs:531-533 | without a sweep the session under a key never changes |
| SessionStore.OverlappingCallersShare | crates/hydrofoil/src/engine.rs:518-537 | callers with the same key and no sweep between their answers get the same session |
| SessionStore.ResolvesOwnIff | crates/hydrofoil/src/server.rs:206-220 | in every reachable state the resolved session carries the request's own principal and token exactly when it names no stored id, its own ephemeral key, or a handshake made with them |
| SessionStore.IdleError | crates/hydrofoil/src/engine.rs:296-307 | reported idle time is at least the true one and less than a millisecond above it |
| SessionStore.SweepBounds | crates/hydrofoil/src/engine.rs:541-547 | a sweep evicts every session idle for the ttl and none used within the ttl less a millisecond |
| SessionStore.EvictedInTime | crates/hydrofoil/src/engine.rs:552-562 | with ticks on time a session is gone within ttl plus one sweep interval of its last use |
| SessionStore.Store.Get | crates/hydrofoil/src/engine.rs:501-505 | a hit resets exactly that session's timer |
| SessionStore.Store.Sweep | crates/hydrofoil/src/engine.rs:541-547 | exactly the sessions idle for the ttl go, and from the others exactly the statements that old |
| StatementRuns.ExecutionIdentity | crates/hydrofoil/src/lineage.rs:343-380 | over every run, an execution's run id is its own, its parent is the planning run with its job and namespace or their fallbacks, its root the planning context's parent |
| StatementRuns.HandleBelongsToOneSession | crates/hydrofoil/src/server.rs:1071-1078 | a handle resolves only in the session that planned it |
| StatementRuns.FetchedOnce | crates/hydrofoil/src/server.rs:1066-1103 | once fetched, a handle resolves nowhere in any later run |
| StatementRuns.PreparedStays | crates/hydrofoil/src/server.rs:1126-1145 | over every run without a request that ends it, a prepared statement stays as stored, and has been executed exactly once more for every fetch |
| StatementRuns.ServeKeeps | crates/hydrofoil/src/server.rs:892-947 | every request keeps all ids in the history distinct and every execution derived from its planning |
| StatementRuns.FlightService.GetFlightInfoStatement | crates/hydrofoil/src/server.rs:892-947 | a successful planning stores one statement under a fresh handle and run id |
| StatementRuns.FlightService.DoGetStatement | crates/hydrofoil/src/server.rs:1066-1103 | the statement is executed under a fresh run and removed, or the handle is unknown and nothing changes |
| StatementRuns.FlightService.DoGetPreparedStatement | crates/hydrofoil/src/server.rs:1113-1146 | the statement is executed under a fresh run and stays |
| StatementRuns.FlightService.ClosePreparedStatement | crates/hydrofoil/src/server.rs:1411-1422 | exactly that handle goes; unknown ones are ignored |
| GroupClosure.ClosureIsHierarchy | crates/hydrofoil/src/identity.rs:246-258 | for every group graph the worklist's output is the hierarchy: the groups reachable by paths, each once, with its own parents |
| GroupClosure.HierarchyUnique | crates/hydrofoil/src/identity.rs:246-258 | two answers differ at most in order |
| GroupClosure.ConfigIdentityProvider.Enrich | crates/hydrofoil/src/identity.rs:230-265 | it terminates on every graph, cycles and undefined groups included, with exactly that hierarchy; an unknown user gets nothing |
| GroupClosure.Engine.Enrich | crates/hydrofoil/src/engine.rs:165-181 | a cached answer is used and never changes; a failed call is not remembered |
| SqlSyntax.SkipSemicolons | crates/datafusion/src/sql/parser.rs:101-104 | skipping empty statements stops at the first other token |
| SqlSyntax.ParseStatement | crates/datafusion/src/sql/parser.rs:136-159 | a parsed statement always takes at least one token |
| SqlParser.HFParser.ParseSql | crates/datafusion/src/sql/parser.rs:97-118 | the loop terminates on every token sequence with what the syntax says |
| SqlParser.HFParser.ParseOneStatement | crates/datafusion/src/sql/parser.rs:136-159 | dispatch: the statement and the tokens left, or failure |
| SqlParser.HFParser.ParseVacuum | crates/datafusion/src/sql/parser.rs:162-223 | VACUUM with its clauses in any order |
| SqlParser.HFParser.ParseVacuumClause | crates/datafusion/src/sql/parser.rs:177-207 | DRY RUN once; FULL and RETAIN set again |
| SqlParser.HFParser.ParseCreateObject | crates/datafusion/src/sql/parser.rs:226-250 | which CREATE goes where |
| SqlParser.HFParser.ParseCreateTable | crates/datafusion/src/sql/parser.rs:259-305 | CREATE TABLE with required columns |
| SqlParser.HFParser.ParseTableClause | crates/datafusion/src/sql/parser.rs:278-290 | USING is read and dropped, LOCATION refused |
| SqlParser.HFParser.ParseCreateCatalog | crates/datafusion/src/sql/parser.rs:307-401 | CREATE CATALOG with its clauses in any order, shared or located but not both |
| SqlParser.HFParser.ParseCatalogClause | crates/datafusion/src/sql/parser.rs:326-370 | one clause, refused when already set or unsound |
| SqlParser.HFParser.ParseCreateSchema | crates/datafusion/src/sql/parser.rs:415-491 | CREATE SCHEMA with its clauses in any order |
| SqlParser.HFParser.ParseSchemaClause | crates/datafusion/src/sql/parser.rs:437-468 | one clause, refused when already set |
| SqlParser.HFParser.ParseAllClauses | crates/datafusion/src/sql/parser.rs:325-379 | the clause loop ends at the statement's own end, which it takes |
| SqlParser.HFParser.ParseDrop | crates/datafusion/src/sql/parser.rs:497-513 | our DROP statements, or the parser underneath |
| SqlParser.HFParser.ParseDropObject | crates/datafusion/src/sql/parser.rs:515-555 | DROP CATALOG and DROP SCHEMA, leaving the delimiter |
| SqlParser.HFParser.ParseValueOptions | crates/datafusion/src/sql/parser.rs:561-581 | at least one pair, trailing comma allowed |
| SqlParser.HFParser.ParseKey | crates/datafusion/src/sql/parser.rs:589-613 | dotted words or a quoted string |
| SqlParser.HFParser.ParseValue | crates/datafusion/src/sql/parser.rs:620-632 | words, strings and numbers as values |
| SqlRoundTrip.OptionsParse | crates/datafusion/src/sql/parser.rs:561-581 | printed options parse back, with or without a trailing comma |
| SqlRoundTrip.SpelledOptionsParse | crates/datafusion/src/sql/parser.rs:561-632 | however keys and values are spelled, options parse to what they mean: dotted words to their join, a word value to its text |
| SqlRoundTrip.DottedParses | crates/datafusion/src/sql/parser.rs:589-605 | words with periods between them parse to the words joined by periods |
| SqlRoundTrip.EmptyOptionsRefused | crates/datafusion/src/sql/parser.rs:565-568 | empty parentheses are refused |
| SqlRoundTrip.ClausesParse | crates/datafusion/src/sql/parser.rs:325-379 | any printed clause list parses to what applying its clauses in order gives |
| SqlRoundTrip.StatementParses | crates/datafusion/src/sql/parser.rs:136-159 | every written statement parses to what it means, and to nothing when it means nothing |
| SqlRoundTrip.ScriptParsesIff | crates/datafusion/src/sql/parser.rs:97-118 | a whole script parses to its statements exactly when each means something and enough semicolons separate them |
| SqlRoundTrip.OneSemicolonIsNotEnough | crates/datafusion/src/sql/parser.rs:213-216 | VACUUM a; VACUUM b is refused |
| SqlClauses.ApplyAllIff | crates/datafusion/src/sql/parser.rs:649-654 | a clause list is taken exactly when nothing that may be said once is said twice or was set before |
| SqlClauses.AcceptedIff | crates/datafusion/src/sql/parser.rs:307-384 | exactly which statements with clauses are accepted |
| SqlClauses.LastRetainWins | crates/datafusion/src/sql/parser.rs:187-205 | of several RETAIN clauses the last wins |
| SqlClauses.RoundTrip | crates/datafusion/src/sql/parser.rs:307-491 | printing a statement with its clauses in any order and any number of semicolons, and parsing, gives back exactly that statement |
| SqlClauses.DropRoundTrip | crates/datafusion/src/sql/parser.rs:515-555 | DROP statements come back too |
| Fnv.Fnv1a64 | crates/hydrofoil/src/lineage.rs:317-326 | the loop computes the fold of the step over the bytes |
| Fnv.StepBijective | crates/hydrofoil/src/lineage.rs:321-324 | each step is a bijection on the 64-bit states, undone by the prime's inverse |
| Fnv.BytesPart | crates/hydrofoil/src/lineage.rs:321-324 | different bytes take one state to different states |
| Fnv.HashInjective | crates/hydrofoil/src/lineage.rs:317-326 | the same bytes never bring two states together |
| Fnv.OneByteDecides | crates/hydrofoil/src/lineage.rs:317-326 | inputs of one length that differ in one byte never hash alike |
| Fnv.ExtensionOfPath | node/desktop/src-tauri/src/notebook.rs:111-116 | the extension is what follows the last dot of the last segment, else that of a Python file |
| Fnv.SharedIff | node/desktop/src-tauri/src/notebook.rs:104-118 | two paths share a working copy exactly when hashes and extensions agree |
| Fnv.OneByteNeverShares | node/desktop/src-tauri/src/notebook.rs:104-118 | paths of one length that differ in one byte never share one |
| Fnv.TwoPathsCollide | node/desktop/src-tauri/src/notebook.rs:101-118 | two concrete paths that share one |
| Fnv.DoubledSlashNeverShares | node/desktop/src-tauri/src/notebook.rs:104-118 | a doubled slash behind /home gives another working name, whatever follows |
| JobNames.NormalizeIff | crates/hydrofoil/src/lineage.rs:309-312 | two texts normalise alike exactly when their words agree, and normalising is idempotent |
| JobNames.SameJobIff | crates/hydrofoil/src/lineage.rs:301-307 | two queries share a job exactly when the upper 48 bits of their hashes agree, so the same words always do |
| Notebooks.NotebookServer.Open | node/desktop/src-tauri/src/notebook.rs:351-427 | the file is copied and its session recorded, or a failure leaves everything but perhaps a begun working copy |
| Notebooks.NotebookServer.Edit | node/desktop/src-tauri/src/notebook.rs:64-66 | an edit changes exactly that working copy |
| Notebooks.NotebookServer.Sync | node/desktop/src-tauri/src/notebook.rs:430-456 | the working copy goes back to where the session's path leads, under whatever spelling, and nothing else changes; a failure may leave a beginning of it there, and a retry gives the same |
| Notebooks.RetryStores | node/desktop/src-tauri/src/notebook.rs:446-454 | a sync after one that failed halfway gives what it would have given without |
| Notebooks.NotebookServer.Close | node/desktop/src-tauri/src/notebook.rs:462-475 | session and working copy go; an unknown id changes nothing |
| Notebooks.OthersUndisturbed | node/desktop/src-tauri/src/notebook.rs:351-475 | over every run of acts under other names, failed ones included, a notebook's session and working copy stay |
| Notebooks.FileStaysIff | node/desktop/src-tauri/src/notebook.rs:430-456 | over every run the file stays as it is throughout if and only if no act syncs a session whose path leads to the same place and writes something else |
| Notebooks.OverwrittenUnderAnotherName | node/desktop/src-tauri/src/notebook.rs:383-456 | opening, editing and syncing under another spelling replaces the file while the first notebook stays open, whose own sync then undoes it |
| Notebooks.DoubledSlashSplits | node/desktop/src-tauri/src/notebook.rs:101-118 | every home file has two spellings with different names |
| Notebooks.EditsComeHome | node/desktop/src-tauri/src/notebook.rs:430-456 | whatever is done under other names, syncing puts the edits where the notebook was opened from |
| Notebooks.OpenThenSync | node/desktop/src-tauri/src/notebook.rs:351-456 | without edits the files are unchanged |
| Notebooks.OpenTakesOverIff | node/desktop/src-tauri/src/notebook.rs:391-403 | opening another notebook leaves the first alone exactly when they share no name |
| EnvIds.TrimsDashesOnly | node/desktop/src-tauri/src/env.rs:140-140 | trimming takes dashes off the ends and nothing else |
| EnvIds.BaseKeepsIds | node/desktop/src-tauri/src/env.rs:133-145 | a name that could be an id is its own base |
| EnvIds.AllocateEnvId | node/desktop/src-tauri/src/env.rs:132-157 | the search terminates with the first free candidate: not in use, letters, digits and dashes only |
| EnvIds.TakenAtMost | node/desktop/src-tauri/src/env.rs:149-156 | by the pigeonhole principle one of the first ids in use plus one candidates is free |
| EnvIds.FirstFreeUnique | node/desktop/src-tauri/src/env.rs:132-157 | the id is determined by the name and the ids in use |
| EnvIds.Registry.Create | node/desktop/src-tauri/src/commands.rs:333-362 | a creation appends one environment with a fresh id; a failed one leaves the file as it was or unreadable, and an unreadable one is never written over; ids stay distinct |
| EnvIds.Registry.SetModules | node/desktop/src-tauri/src/commands.rs:565-578 | a success changes exactly the modules of the environment with that id, all of them known |
| EnvIds.Registry.SetObservability | node/desktop/src-tauri/src/commands.rs:583-591 | a success changes exactly the flag of the environment with that id |
| EnvIds.ChangedIsUpdate | node/desktop/src-tauri/src/commands.rs:572-577 | ids being distinct, changing the one found is changing all with the id, and no id changes |
| TypeConversion.ConvertsIff | crates/common/src/conversion.rs:125-207 | a type converts exactly when at every depth no nested type is missing or unsupported |
| TypeConversion.ForgetsExactly | crates/common/src/conversion.rs:109-207 | two types convert alike exactly when they agree up to variations, collations and decimal defaults and widths; names, order and nullability survive at every depth |
| TypeConversion.ArrowRoundTrip | crates/common/src/conversion.rs:222-256 | Arrow to Connect and back gives the type in the preferred string, binary and UTC spelling, decimals exact |
| TypeConversion.ConnectRoundTripIff | crates/common/src/conversion.rs:200-256 | Connect to Arrow and back is exact if and only if the type is a plain scalar, decimals within eight bits |
| TypeConversion.FieldRoundTrip | crates/common/src/conversion.rs:209-220 | a field comes back with its name and nullability |
| TypeConversion.ColumnRoundTripIff | crates/common/src/conversion.rs:96-107 | a column comes back exactly when its type survives and it says nothing else |

## Left out

- Modification times, etags, content types, symbolic links and `stat` operations of the file stores.
- The volume store's reads, writes and recursive listing: they are calls to an object store and the catalog.
- Agreement of the two stores' `list_directory`: the flat store keeps directory records of its own.
- Tag policies and assignments, update masks, header precedence, tag and owner header parsing: they would only add easy members.
- Real keychain behaviour, concurrent key commands, and `delete_key`, which nothing calls.
- Two concurrent fetches of one statement handle, both of which can find it before either removes it.
- Plannings that fail: they store nothing and only report a failed run.
- `execute_logical_plan`, the one-shot `FlightDataStream`, panics of stream tasks, and the order in which a merged stream polls its two sources.
- A session's attributes: an ephemeral session keeps those of the caller that built it; only uid and token are fixed by its key.
- Different tokens whose 64-bit hashes collide share a fingerprint; the token hash itself is abstract.
- The CREATE branches that are not implemented (connection, location, share, foreign catalog) panic in the code and give nothing here.
- The tokenizer, column definitions (one opaque token), URL parsing, and retention hours as a number (the digits are kept).
- The environment switch, process supervision, notebook server start-up and all transport encodings.
- Field and struct metadata, and a column's identity information, in type conversion.
- What other clients of the stores write to a notebook's file while it is open.
- SessionStore.Store.Insert: sessions are inserted one at a time here; concurrent insertion is in the event machine of the same module.
- KeyVault.KeyStore.ReportStatus: says which readings lead to the status, not which readings the system gives.
- PiecewiseReading.ReadLocal: for a place that can be listed; what listing another place answers is stated by LocalStore.LocalFileStore.ListFilesOpts.
