# qdropd, modelled and proved

qdropd is a peer-to-peer daemon that syncs clipboards and sends files between
paired devices. This project models its interacting state machines in Dafny and
proves what they promise over whole runs: every input, every interleaving, every
reachable state.

The parts of the program that change things in place are classes and methods
(`FileXfer`, `History`, `Manager`, `DaemonState`, `Peers`, `RosterInner`,
`ClipboardThread`, `SyncLoop`, `Stream`, `Runner`; the pairing `Exchange` is a
method over two streams). Their methods are proved against specification
functions of the abstract state (`View()`) or of the bytes read, and the theorems
are about runs of those steps.

| file | what it holds |
|---|---|
| `Prelude.dfy`, `Decimal.dfy`, `FileSystem.dfy` | shared types; printing and parsing numbers; names, inodes and open handles of the download directory |
| `BlobNames.dfy` | accepted names, temporary names, the search for a free name |
| `Receiver.dfy`, `ReceivedFiles.dfy` | receiving blobs: reassembly, limits, slots, verdicts; what happens on disk |
| `DistinctNames.dfy`, `NameClashes.dfy`, `FileXfer.dfy` | names under which nothing can go wrong; what goes wrong otherwise; the object |
| `Transfers.dfy`, `Delivery.dfy`, `Retries.dfy` | the sender's frames; sender, connections that are cut, and receivers, as one system; when it tries again, gives up and succeeds |
| `History.dfy`, `HistoryObject.dfy` | the clipboard history with its files and restarts |
| `Registry.dfy` | paired devices and the two-way index |
| `Manager.dfy`, `ManagerObject.dfy`, `TwoDaemons.dfy` | the connection manager, the published status, two managers side by side |
| `PeerAddresses.dfy`, `Accepted.dfy` | addresses, discovery records and channels of peers; accepted connections |
| `ClipSync.dfy`, `ClipDecisions.dfy` | clipboard polling, sync loop, any number of daemons; exactly what is sent, applied and passed on |
| `Framing.dfy`, `Connection.dfy` | length-prefixed frames, the relay, keepalive timing |
| `Pairing.dfy`, `PairingWire.dfy`, `Addresses.dfy`, `Pin.dfy` | the PIN exchange and its bytes, candidate addresses, PIN generation |

## What is assumed

Some facts the code does not establish by itself; the theorems that need one name
it in their `requires`.

- SHA-256 is an arbitrary function of the bytes. Nothing assumes it injective:
  receiver theorems speak of digests where the code compares digests.
- File operations either succeed or take the code's own error branch (the fields
  of `Receiver.Env`, `writeOk` of the history). Deletes and the rewrite of the
  history index succeed, a failed write leaves the directory as it was, and one
  frame is handled as one step (the router is sequential,
  `crates/qdropd/src/main.rs:187`).
- `ReceivedFiles.Undisturbed`: the name a frame writes (the temporary name of a
  file start, the destination of an end) is not the temporary file of another
  transfer in flight, not a committed file, and, for a start, not a second name
  of some other file. Anything else may be there, such as the temporary file of
  an earlier transfer, which is truncated. The code checks none of this, and the
  temporary name leaves out the peer (`crates/qdropd/src/filexfer.rs:168`).
  `ReceivedFiles.GoodExactly` proves the condition exact, frame by frame:
  transfers keep their own files and commits stay intact if and only if it holds.
  `NameClashes.SharedTempCorrupts` is the failing family: two peers that send the
  same name under the same id, which is ordinary since every daemon counts from
  1, get one of them acknowledged with the other's bytes in its file.
- `ReceivedFiles.Clear`, stronger: the name written is not in the directory at
  all. Only the statements that no file whatsoever is altered need it
  (`KeepsFiles`). `NameClashes.StartHarmlessExactly` says exactly when a start
  leaves the contents of every file alone. `DistinctNames.ProperRunIsClear`
  derives both conditions for every run from names alone: nothing in the
  directory, and no name asked for, looks like a temporary file; transfers in
  flight differ in directory, name or id; keys are not reused while live; and
  fewer than 10,000 names are in the directory at each end.
- The ids a send call will use are new to every receiver (`Delivery.Initial`).
  Ids count up from 1 in every run of a daemon, so a sender that restarts while a
  receiver still remembers its old ids is not covered: a late verdict for an old
  id could answer a new transfer, as `Delivery.OldVerdictFakesSuccess` shows.
  Everything else may be in flight already.
- Keys of transfers are fresh where a statement counts them (`Starts(xs, k)`).
  Without that, `Receiver.VerdictConservation` still balances the books with the
  number of replaced transfers.
- A ConnUp finds its peer's entry. `Manager.ConnUpAgreesExactly` shows that this
  is precisely what the published status needs.
- A ConnDown is handled while no other connection with that peer is driven.
  `Accepted.HeldExactly` shows that this is precisely what it takes to keep the
  handles of accepted connections, and `Accepted.StaleConnDownLeaks` what happens
  otherwise.
- The image setting is fixed during a run of the clipboard sync, and a snapshot
  of the clipboard is always available to the polling thread.
- Fewer than 2^64 records and restarts of the history.
- The roster does not change while one manager event is handled; it may change
  between any two.
- In the pairing exchange keys and tags are symbolic (equal only when computed
  from equal inputs); on bytes this is asked only of the elements and tags of the
  exchange at hand (`PairingWire.Ideal`, which `PairingWire.CryptoExists` shows
  can always be met). Channels have room for what is written, and decoding undoes
  encoding (`Framing.Faithful`), as for all messages.

## Where the code and its documentation differ

- `docs/qdropd.md:158` calls history entries distinct. The code compares a record
  with the newest entry only. `History.RecordKeepsDistinctExactly` says when a
  record keeps the entries distinct; `History.HistoryCanRepeat` gives, after any
  history, three records that do not.
- `docs/qdropd.md:183` says `qdrop copy` broadcasts like a local copy. The code
  applies it like a remote clip (`ClipSync.Command`), and it is never sent:
  `ClipSync.CopyCommandStaysHere` shows it for every clip, and
  `ClipSync.NothingWithoutACopy` for every run of any number of daemons without a
  user copy. `ClipSync.PollSendsExactly` says when a clip on the clipboard does go
  out: a user has copied it here too, and its digest is not the suppressed one.
- `crates/qdrop-core/src/peers.rs:155-156` says the name suffix keeps names
  unambiguous. `Registry.NamesStayDistinctExactly` says when it does;
  `Registry.SuffixCanCollide` shows three devices for which it does not.

## Model

| member | source | states |
|---|---|---|
| `Decimal.PrintParse` | crates/qdropd/src/history.rs:65-76 | parsing a printed number as u64 gives it back exactly when it is below 2^64 |
| `Decimal.ParseExactly` | crates/qdropd/src/history.rs:68-76 | digits, with or without a plus sign, parse exactly when there are some and their value is below 2^64 |
| `Decimal.PrintInjective` | crates/qdropd/src/filexfer.rs:583-584 | different numbers print differently |
| `BlobNames.SafeBlobNameExact` | crates/qdrop-core/src/proto.rs:252-276 | a name is accepted as `s` if and only if, trimmed, its first piece is the ordinary, backslash-free `s` and all other pieces name nothing |
| `BlobNames.SafeBlobNameStaysInside` | crates/qdrop-core/src/proto.rs:252-276 | every accepted name is a single path component other than `.` and `..` |
| `BlobNames.PiecesJoin` | crates/qdrop-core/src/proto.rs:257-262 | the pieces, none with a separator, joined by separators give the string back |
| `BlobNames.TrimExact` | crates/qdrop-core/src/proto.rs:253-256 | trimming takes off white space at both ends and nothing else |
| `BlobNames.TempNameInjective` | crates/qdropd/src/filexfer.rs:168-168 | different (name, id) pairs have different temporary names |
| `BlobNames.CandidateForm` | crates/qdropd/src/filexfer.rs:578-583 | for a name that splits at its last dot into stem and extension, the k-th name tried is the stem, " (k)" and the extension |
| `BlobNames.CandidateKeepsExtension` | crates/qdropd/src/filexfer.rs:578-583 | in particular `stem.ext` becomes `stem (k).ext` |
| `BlobNames.EveryNameSplits` | crates/qdropd/src/filexfer.rs:578-581 | every name does split that way |
| `BlobNames.CandidateInjective` | crates/qdropd/src/filexfer.rs:578-585 | the candidate destinations of a name are pairwise distinct |
| `BlobNames.CandidateStaysInside` | crates/qdropd/src/filexfer.rs:578-585 | every candidate of a single path component is one too |
| `BlobNames.DestinationIsFresh` | crates/qdropd/src/filexfer.rs:573-589 | in a directory with fewer than 10,000 names the destination for any accepted name is unused and directly in it (pigeonhole) |
| `BlobNames.DestinationTakenExactly` | crates/qdropd/src/filexfer.rs:573-589 | the destination is a name in use if and only if all 10,000 candidates are |
| `BlobNames.UniqueDest` | crates/qdropd/src/filexfer.rs:573-589 | the plain name if it is free; otherwise stem, number in parentheses and extension for the smallest number from 1 to 9999 whose name is free; otherwise the plain name |
| `Receiver.StepEffect` | crates/qdropd/src/filexfer.rs:127-319 | what one frame can do to the map of transfers: nothing, refuse, open one empty, extend one by exactly the chunk, or close one; every other entry is untouched |
| `Receiver.Reassembly` | crates/qdropd/src/filexfer.rs:127-319 | for any interleaving of frames from any peers, hasher, counter, buffer and file position of every transfer in flight describe exactly its chunks since its admitted start |
| `Receiver.InFlightBounds` | crates/qdropd/src/filexfer.rs:40-43 | in every reachable state at most 16 transfers are in flight, holding at most 16 x 64 MiB in memory |
| `Receiver.ImageAdmittedExactly` | crates/qdropd/src/filexfer.rs:135-154 | an image start is admitted if and only if fewer than 16 transfers are in flight, there is a clipboard sink and at most 64 MiB are announced |
| `Receiver.FullExactly` | crates/qdropd/src/filexfer.rs:135-139 | with all 16 slots taken the transfers in flight stay the same if and only if the frame is neither an end nor a failing chunk of one of them; every start is refused |
| `Receiver.FullUntilFreed` | crates/qdropd/src/filexfer.rs:127-252 | so a full receiver refuses every start, from every peer and whoever disconnects, until one of those transfers gets its end or a failing chunk |
| `Receiver.StepVerdicts` | crates/qdropd/src/filexfer.rs:115-319 | a frame produces at most one verdict, for its own transfer, and a commit only together with one |
| `Receiver.VerdictConservation` | crates/qdropd/src/filexfer.rs:127-319 | starts of a key = verdicts + replaced + still in flight, in every run |
| `Receiver.OneVerdictPerTransfer` | crates/qdropd/src/filexfer.rs:127-319 | a key started once gets one verdict exactly when it is no longer in flight, in particular once its end was handled, and at most one commit |
| `ReceivedFiles.StepKeepsFiles` | crates/qdropd/src/filexfer.rs:127-319 | a frame that meets no file under the name it writes moves, removes or alters no file that is not a transfer in progress; each transfer keeps its own inode holding exactly the bytes hashed |
| `ReceivedFiles.RunKeepsFiles` | crates/qdropd/src/filexfer.rs:127-319 | the same over whole runs: neither earlier files nor received ones are ever clobbered |
| `ReceivedFiles.SeparateKeeps` | crates/qdropd/src/filexfer.rs:127-319 | as long as the name written is no other transfer's file, transfers keep their own files, and every finished file but one under that very name stays as it was |
| `ReceivedFiles.PlacesExactly` | crates/qdropd/src/filexfer.rs:135-319 | the guards in these conditions are exact: a file start is admitted if and only if a slot, the name, the directory and the file operations allow it; an end commits if and only if digest, size, temporary file, destination and rename do |
| `ReceivedFiles.StartRefusals` | crates/qdropd/src/filexfer.rs:135-180 | each reason for refusing a start if and only if its condition holds and none before it |
| `ReceivedFiles.ChunkRefusals` | crates/qdropd/src/filexfer.rs:202-229 | a chunk is refused if and only if its write fails or the image grows past 64 MiB, each with its reason |
| `ReceivedFiles.EndRefusals` | crates/qdropd/src/filexfer.rs:251-289 | an end is refused for the digest, else the size, else the move, each if and only if that is wrong |
| `ReceivedFiles.DirectoryExact` | crates/qdropd/src/filexfer.rs:161-168 | a file is received under its accepted name, in `pending` if and only if it needs confirmation, and committed and acknowledged under that name in the same directory |
| `ReceivedFiles.GoodExactly` | crates/qdropd/src/filexfer.rs:127-319 | transfers keep their own files and every committed file stays in place with its bytes if and only if the name the frame writes is nobody else's: exact for every frame |
| `ReceivedFiles.RunKeepsGood` | crates/qdropd/src/filexfer.rs:127-319 | the same over whole runs |
| `ReceivedFiles.ClearIsUndisturbed` | crates/qdropd/src/filexfer.rs:127-319 | a frame that meets no file disturbs nobody |
| `ReceivedFiles.CommitSound` | crates/qdropd/src/filexfer.rs:235-319 | every commit was made by an end whose digest is that of the chunks collected, with the declared size if one was given; the file holds exactly those bytes and still does at the end of the run |
| `ReceivedFiles.NoStrayFiles` | crates/qdropd/src/filexfer.rs:127-319 | with fresh keys the directory holds only what it held, the commits, `pending` and one temporary file per file transfer in flight |
| `NameClashes.StartHarmlessExactly` | crates/qdropd/src/filexfer.rs:168-177 | an admitted start leaves every file's contents alone if and only if its temporary name is not a file, or an empty one |
| `NameClashes.TempNameCanDestroyAFile` | crates/qdropd/src/filexfer.rs:168-177 | for every plain name: a file named like the temporary file, itself an acceptable name, is emptied by the start |
| `NameClashes.SharedTempCorrupts` | crates/qdropd/src/filexfer.rs:168-177 | for every two peers, plain name, shared id and contents: both start, both send, the first ends with its own digest, and its file is committed and acknowledged with the second's bytes written over its own |
| `DistinctNames.NumberedIsNotTempLike` | crates/qdropd/src/filexfer.rs:578-585 | a numbered destination never looks like a temporary name |
| `DistinctNames.ProperIsClear` | crates/qdropd/src/filexfer.rs:168-168 | a frame proper in its names meets no foreign file |
| `DistinctNames.StepOrdinary` | crates/qdropd/src/filexfer.rs:127-319 | proper frames keep: temporary files are named after their transfer, and every temporary-looking name belongs to one in flight |
| `DistinctNames.ProperStep` | crates/qdropd/src/filexfer.rs:127-319 | a proper frame keeps all of it: nothing clobbered, commits and transfers intact, names in order |
| `DistinctNames.ProperRunIsClear` | crates/qdropd/src/filexfer.rs:127-319 | runs of proper frames never clobber or disturb a file, and the temporary files on disk are exactly those of transfers in flight |
| `FileXferObject.FileXfer.constructor` | crates/qdropd/src/filexfer.rs:78-93 | starts with no transfers |
| `FileXferObject.FileXfer.OnStart` | crates/qdropd/src/filexfer.rs:127-200 | the handler is the specification's start step |
| `FileXferObject.FileXfer.OnChunk` | crates/qdropd/src/filexfer.rs:202-233 | the handler is the specification's chunk step |
| `FileXferObject.FileXfer.OnEnd` | crates/qdropd/src/filexfer.rs:235-319 | the handler is the specification's end step |
| `FileXferObject.FileXfer.CommitFile` | crates/qdropd/src/filexfer.rs:277-318 | the commit by rename is the specification's |
| `FileXferObject.FileXfer.HandleInbound` | crates/qdropd/src/filexfer.rs:96-113 | one blob frame is one step of the specification and keeps the limits; commits and transfers stay intact exactly when the frame disturbs none; a frame proper in its names leaves every finished file alone |
| `Transfers.StreamBlob` | crates/qdropd/src/filexfer.rs:483-535 | the frames are a start, pieces of 64 KiB (only the last shorter, none empty) whose concatenation is the content, and the digest of the content |
| `Transfers.IntactFileCommits` | crates/qdropd/src/filexfer.rs:127-319 | an admitted file transfer whose frames all arrive and whose I/O succeeds commits exactly the original content, whatever else arrives in between, also over a leftover temporary file |
| `Transfers.IntactImageArrives` | crates/qdropd/src/filexfer.rs:127-276 | the same for a clipboard image of at most 64 MiB |
| `Delivery.MoveInv` | crates/qdropd/src/filexfer.rs:372-543 | every move of sender, links and receivers keeps what is known of each attempt: what is queued, delivered, refused or committed |
| `Delivery.BehaviorInv` | crates/qdropd/src/filexfer.rs:372-543 | so in every state of every run |
| `Delivery.SuccessMeansCommitted` | crates/qdropd/src/filexfer.rs:372-446 | in every run: if the call reports success, however connections were cut, acks lost and old connections drained, the target has committed a file for the last attempt after hashing exactly the bytes it streamed |
| `Delivery.TargetStaysGood` | crates/qdropd/src/filexfer.rs:127-319 | in a run whose frames disturb none of the target's files, those stay intact |
| `Delivery.SuccessMeansDelivered` | crates/qdropd/src/filexfer.rs:372-446 | and then the committed file holds exactly the bytes streamed and is still there |
| `Delivery.AtMostThreeCopies` | crates/qdropd/src/filexfer.rs:372-416 | in every run, whatever the outcome and whatever happens on disk: at most three attempts, each leaving at most one copy at the target and none elsewhere |
| `Delivery.OldVerdictFakesSuccess` | crates/qdropd/src/filexfer.rs:78-111 | any receiver that holds a positive verdict for the id about to be used can make the call report success with none of its frames handled |
| `Retries.TriesAgain` | crates/qdropd/src/filexfer.rs:383-408 | after a failed attempt, with fewer than three failed and the target on the bus, another may begin and giving up is not possible |
| `Retries.FailuresCounted` | crates/qdropd/src/filexfer.rs:383-408 | in every run the attempts used up are exactly those that failed |
| `Retries.GivesUpOnlyWhen` | crates/qdropd/src/filexfer.rs:383-415 | in every run a call that reports failure gave up after three failed attempts, or after a failed one with the target off the bus |
| `Retries.CallCanSucceed` | crates/qdropd/src/filexfer.rs:372-446 | after zero, one or two failures, for every content, with an up connection and a target whose disk allows it, there is a run to success with exactly that content committed |
| `Retries.RunCanSucceed` | crates/qdropd/src/filexfer.rs:372-446 | so every run with an attempt left extends to such a success |
| `History.FileNumberOfPngName` | crates/qdropd/src/history.rs:68-76 | the number of an image file name is read back |
| `History.Ownership` | crates/qdropd/src/history.rs:60-155 | in every reachable state, whatever sizes the reloads used, image entries name distinct existing files with the recorded digest, and the counter is ahead of all of them |
| `History.NewImageIsNew` | crates/qdropd/src/history.rs:122-131 | a new image never overwrites a live entry's file |
| `History.RingStep` | crates/qdropd/src/history.rs:141-155 | how the one-line specification changes with one more record |
| `History.RingRefinement` | crates/qdropd/src/history.rs:60-155 | after any records and reloads with the same size the ring is the first `max` of the reversed, consecutively deduplicated records |
| `History.GetExact` | crates/qdropd/src/history.rs:195-204 | `get(i)` returns exactly the text or PNG bytes of the i-th of them, and nothing beyond the end |
| `History.FilesAreExactlyTheLiveOnes` | crates/qdropd/src/history.rs:141-162 | with an unchanged size the PNG files on disk are exactly those of the entries, and the index is the ring |
| `History.RecordKeepsDistinctExactly` | crates/qdropd/src/history.rs:141-146 | a record keeps the entries distinct if and only if it repeats the newest or none that stays |
| `History.HistoryCanRepeat` | crates/qdropd/src/history.rs:141-146 | after any history, a, b, a leaves a repeated entry |
| `History.SizeZeroRecordsNothing` | crates/qdropd/src/history.rs:85-107 | with size 0 no run records or writes anything |
| `History.NumbersAreUsedUp` | crates/qdropd/src/history.rs:104-132 | every image that does not repeat the newest entry uses up a number, whether or not its file was written |
| `HistoryObject.History.constructor` | crates/qdropd/src/history.rs:60-83 | loading truncates the index and finds the next number |
| `HistoryObject.History.Push` | crates/qdropd/src/history.rs:141-155 | the eviction loop is the specification's push |
| `HistoryObject.History.RecordText` | crates/qdropd/src/history.rs:89-102 | is the specification's text record |
| `HistoryObject.History.RecordImage` | crates/qdropd/src/history.rs:104-139 | is the specification's image record, including the failed write |
| `HistoryObject.History.Get` | crates/qdropd/src/history.rs:195-204 | is the specification's lookup |
| `Registry.IdsStayDistinct` | crates/qdrop-core/src/peers.rs:157-175 | after any upserts and removals device ids are distinct |
| `Registry.UpsertFinds` | crates/qdrop-core/src/peers.rs:150-168 | after an upsert that device is found with the new data and every other as before |
| `Registry.UpsertKeepsData` | crates/qdrop-core/src/peers.rs:157-168 | the entry found has the id, key, addresses and authorization given, and the name given or, if another device has it, that name with a dash and the first six characters of the id |
| `Registry.RemoveFinds` | crates/qdrop-core/src/peers.rs:171-175 | after a removal by name every device is found as before except those of that name |
| `Registry.NamesStayDistinctExactly` | crates/qdrop-core/src/peers.rs:154-168 | an upsert keeps names distinct if and only if the name or its suffixed form is free |
| `Registry.SuffixCanCollide` | crates/qdrop-core/src/peers.rs:157-168 | three upserts after which two devices share a name |
| `Registry.RosterAgreesWithScan` | crates/qdrop-core/src/roster.rs:28-39 | after any edits the index answers trusted id, key of id and trusted key exactly as a scan of entries with usable keys |
| `Registry.RosterInverseExactly` | crates/qdrop-core/src/roster.rs:75-122 | id to key to peer is the identity if and only if no two devices share a key |
| `Registry.RosterInverseBack` | crates/qdrop-core/src/roster.rs:75-122 | key to id and back is the identity |
| `Registry.Peers.Upsert` | crates/qdrop-core/src/peers.rs:157-168 | the edit in place is the specification's upsert and keeps ids distinct |
| `Registry.Peers.RemoveByName` | crates/qdrop-core/src/peers.rs:171-175 | removes exactly the entries of that name and says whether there was one |
| `Registry.RosterInner.Load` | crates/qdrop-core/src/roster.rs:75-122 | clearing and refilling both maps gives the index of the usable entries |
| `Manager.RolesAreOpposite` | crates/qdropd/src/transport.rs:119-125 | of two distinct devices exactly one dials |
| `Manager.LessAtFirstDifference` | crates/qdropd/src/transport.rs:119-125 | the order of ids is decided by the first character that differs, a prefix coming first |
| `Manager.ReloadIsExact` | crates/qdropd/src/transport.rs:260-298 | after a reload the entries are (old, discovered or configured) and trusted; dropped peers lose task and bus channel; survivors keep task and connection |
| `PeerAddresses.MergeExact` | crates/qdropd/src/transport.rs:401-406 | the list for a dial loop starts with the addresses found and holds exactly those and the configured ones, none repeated beyond what was found |
| `PeerAddresses.ConfiguredIsRegistered` | crates/qdrop-core/src/roster.rs:50-65 | with distinct ids and keys the configured addresses are those of the registry's entry, and the peers with configured addresses exactly the entries that have some |
| `PeerAddresses.FoundAddresses` | crates/qdropd/src/transport.rs:238-245 | a trusted peer we dial has, once found, that list in its channel, and its name |
| `PeerAddresses.LostAddresses` | crates/qdropd/src/transport.rs:246-259 | once lost, exactly the configured addresses; no other entry changes |
| `PeerAddresses.ReloadAddresses` | crates/qdropd/src/transport.rs:260-298 | after a reload every peer we dial, newcomer or survivor, has the addresses found and configured, exactly the configured ones if it is not discovered, and what it had if it is neither |
| `PeerAddresses.DiscoveryExact` | crates/qdropd/src/transport.rs:238-247 | in every run the manager knows exactly the peers found and not lost since, trusted or not, with their latest record |
| `PeerAddresses.FoundThenTrusted` | crates/qdropd/src/transport.rs:286-297 | a peer found while untrusted gets its entry and its addresses at the reload that trusts it |
| `PeerAddresses.BusExact` | crates/qdropd/src/transport.rs:337-378 | in every run a peer on the bus is reached through the channel of its latest connection, and one that is up is on the bus unless a reload dropped it |
| `PeerAddresses.NamesGiven` | crates/qdropd/src/transport.rs:308-347 | entries carry the name given by the latest stream or connection |
| `Manager.NextInv` | crates/qdropd/src/transport.rs:236-380 | every event keeps: role as arbitrated, one task and address channel per dialer entry, none without an entry |
| `Manager.OneDialLoopPerPeer` | crates/qdropd/src/transport.rs:207-426 | in every state of every run a peer to be dialed and with an entry has exactly one dial loop and an address channel; no other peer has any |
| `Manager.ConnUpAgreesExactly` | crates/qdropd/src/transport.rs:337-360 | a ConnUp keeps the published status right if and only if its peer still has an entry |
| `Manager.LateConnUpMisleads` | crates/qdropd/src/transport.rs:337-360 | for every peer we accept, a run (accepted, unpaired, its queued ConnUp handled) after which it is online and on the bus without an entry |
| `Manager.NextAgrees` | crates/qdropd/src/transport.rs:236-380 | every other event keeps it right |
| `Manager.StatusAgreement` | crates/qdropd/src/state.rs:26-52 | in every run whose ConnUps find their entry, folding the events gives exactly the connected entries, and each is on the bus |
| `Accepted.InboundReplacesExactly` | crates/qdropd/src/transport.rs:305-335 | after a new stream at most one connection with the peer is driven if and only if the entry held the older one |
| `Accepted.HeldExactly` | crates/qdropd/src/transport.rs:236-380 | every event keeps the handles of all accepted connections, except exactly a ConnDown handled while a connection with that peer is driven |
| `Accepted.OneConnectionPerPeer` | crates/qdropd/src/transport.rs:207-381 | in every run without such a ConnDown at most one accepted connection per peer is driven, and its entry holds it |
| `Accepted.StaleConnDownLeaks` | crates/qdropd/src/transport.rs:361-367 | for every peer we accept, a run with such a ConnDown that ends with two connections driven |
| `Accepted.InboundTrustExactly` | crates/qdropd/src/transport.rs:299-308 | a stream leaves only trusted peers in the map if and only if we are the dialer or the peer is still trusted |
| `Accepted.LateStreamIsAccepted` | crates/qdropd/src/transport.rs:299-336 | for every peer we accept, a run in which its stream is accepted after it was unpaired |
| `ManagerObject.Manager.EnsurePeer` | crates/qdropd/src/transport.rs:385-426 | is the specification's step; a peer we dial has in its channel the addresses given, first, and the configured ones, and nothing else |
| `ManagerObject.Manager.OnFound` | crates/qdropd/src/transport.rs:238-245 | is the specification's step and keeps the invariant |
| `ManagerObject.Manager.OnLost` | crates/qdropd/src/transport.rs:246-259 | is the specification's step, keeps the invariant, and leaves a peer we dial exactly its configured addresses |
| `ManagerObject.Manager.OnInbound` | crates/qdropd/src/transport.rs:299-336 | is the specification's step and keeps the invariant |
| `ManagerObject.Manager.OnConnUp` | crates/qdropd/src/transport.rs:337-360 | is the specification's step and keeps the invariant |
| `ManagerObject.Manager.OnConnDown` | crates/qdropd/src/transport.rs:361-378 | is the specification's step and keeps the invariant |
| `ManagerObject.Manager.DropUntrusted` | crates/qdropd/src/transport.rs:261-285 | drops exactly the untrusted peers, each once |
| `ManagerObject.Manager.Seeds` | crates/qdropd/src/transport.rs:286-291 | discovered peers with their records, and configured ones that discovery does not know with their configured addresses |
| `ManagerObject.Manager.SeedKnown` | crates/qdropd/src/transport.rs:292-297 | ensures exactly the known, trusted peers |
| `ManagerObject.Manager.OnRosterChanged` | crates/qdropd/src/transport.rs:260-298 | the two loops together are the declarative reload, in whatever order the maps are walked |
| `ManagerObject.DaemonState.PublishEvents` | crates/qdropd/src/state.rs:13-53 | the loop's online set is the fold of the events; a device's last-seen time is that of its last disconnection, and is kept if there was none |
| `TwoDaemons.BehaviorKeeps` | crates/qdropd/src/transport.rs:207-641 | the joint invariant holds in every state of every joint run |
| `TwoDaemons.Arbitration` | crates/qdropd/src/transport.rs:299-304 | only the lower id ever has a dial loop for the other; every accepted connection was opened by the lower id; at most one live connection is driven |
| `ClipSync.StepCredit` | crates/qdropd/src/clipboard.rs:67-131 | broadcasts made and still possible grow only by a user copy |
| `ClipSync.NoEchoStorm` | crates/qdropd/src/sync.rs:63-151 | for any number of daemons and any interleaving, never more broadcasts than user copies, and everything broadcast was put on that clipboard by a user in a copy not marked concealed |
| `ClipSync.ObservationsAddUp` | crates/qdropd/src/clipboard.rs:67-131 | observed = emitted + concealed + empty + suppressed, and suppressed at most the applies |
| `ClipSync.AppliesComeFromUsers` | crates/qdropd/src/sync.rs:122-146 | what a frame makes a daemon apply was copied by a user of another daemon |
| `ClipSync.TrafficDiesOut` | crates/qdropd/src/sync.rs:63-151 | without further copies the broadcasts ever made stay within what had been sent, queued or unseen |
| `ClipSync.NothingWithoutACopy` | crates/qdropd/src/clipboard.rs:67-131 | in every run without a user copy nothing is ever broadcast, whatever commands, restores and peers make daemons apply |
| `ClipSync.CopyCommandStaysHere` | crates/qdropd/src/clipboard.rs:74-122 | for every clip: given as a command it is applied, and neither the next poll nor a later one that sees it again passes it on |
| `ClipSync.PollSendsExactly` | crates/qdropd/src/clipboard.rs:96-126 | in every run a poll passes a clip on if and only if there is an unseen, unconcealed change with that clip whose digest is not the suppressed one; and then a user has copied it here |
| `ClipDecisions.SendsExactly` | crates/qdropd/src/sync.rs:73-120 | in any run the next local clip is sent if and only if the loop is not paused, 300 ms have passed since the last one taken in hand, a text is within the limit, images are on for an image, and its digest is not that of the clip last sent or applied |
| `ClipDecisions.AppliesExactly` | crates/qdropd/src/sync.rs:122-146 | in any run a frame is applied if and only if not paused, not our own, and its text within the limit, or without text its image when images are on, is not the clip last sent or applied |
| `ClipDecisions.PassesOnExactly` | crates/qdropd/src/clipboard.rs:96-126 | in any run a poll passes a clip on if and only if the clipboard changed since it last looked, is not concealed and shows that clip, an image before text, and it is not the echo of the last apply |
| `ClipDecisions.CopyGoesOut` | crates/qdropd/src/sync.rs:73-120 | every text within the limit, and every image when they are on, that a user copies on an idle daemon is sent |
| `ClipDecisions.NumberedExactly` | crates/qdropd/src/sync.rs:91-117 | clipboard frames, that is texts and images of at most 256 KiB, are numbered without a gap |
| `ClipSync.WindowBound` | crates/qdropd/src/sync.rs:66-81 | times at least 300 ms apart: a window of length L holds at most L/300 + 1 |
| `ClipSync.BroadcastRate` | crates/qdropd/src/sync.rs:66-81 | so for the accepted local clips of every daemon in every run |
| `ClipSync.ClipboardThread.constructor` | crates/qdropd/src/clipboard.rs:67-70 | starts from the current token, suppressing nothing |
| `ClipSync.ClipboardThread.Apply` | crates/qdropd/src/clipboard.rs:74-87 | what an apply leaves on the clipboard is not news to the next poll, and the same content seen later is not sent on |
| `ClipSync.ClipboardThread.Poll` | crates/qdropd/src/clipboard.rs:96-126 | sees and remembers what the specification says |
| `ClipSync.SyncLoop.constructor` | crates/qdropd/src/sync.rs:63-69 | starts ready to broadcast at once |
| `ClipSync.SyncLoop.OnLocal` | crates/qdropd/src/sync.rs:73-120 | broadcasts exactly what the specification does |
| `ClipSync.SyncLoop.OnFrame` | crates/qdropd/src/sync.rs:122-146 | applies exactly what the specification does |
| `Framing.ReadBack` | crates/qdrop-core/src/frame.rs:46-79 | reading the frames of any messages gives those before the first oversized one and then its error; without one, all of them and a clean close |
| `Framing.ReadTruncated` | crates/qdrop-core/src/frame.rs:28-79 | cut anywhere, the bytes read as the longest prefix of whole messages and then a disconnect |
| `Framing.Be32IsBigEndian` | crates/qdrop-core/src/frame.rs:53-71 | lengths are written and read with the most significant byte first |
| `Framing.IsDisconnectExact` | crates/qdrop-core/src/frame.rs:30-43 | exactly these errors count as the peer going away |
| `Framing.Stream.Write` | crates/qdrop-core/src/frame.rs:46-58 | appends exactly the frame, or nothing when the length does not fit |
| `Framing.Stream.Read` | crates/qdrop-core/src/frame.rs:62-79 | consumes exactly the frame the specification reads, or fails as it does |
| `Connection.MoveKeeps` | crates/qdropd/src/connection.rs:142-227 | channel, bytes written, bytes arrived, frames decoded and hub stay consistent at every step |
| `Connection.HubGetsAPrefix` | crates/qdropd/src/connection.rs:142-227 | in every run, wherever the bytes stop, the hub has a prefix, in order, of what the other end's channel accepted |
| `Connection.TurnsAccounted` | crates/qdropd/src/connection.rs:176-224 | over any turns of the loop: the peer has got every channel message and every pong once and in order, pings numbered on without a gap and nothing else; the hub exactly the application messages received |
| `Connection.IdleMeansSilence` | crates/qdropd/src/connection.rs:172-202 | over any turns the deadline is the last reception plus the timeout whatever was sent, so a turn idles out if and only if there was silence that long |
| `Connection.EndsExactly` | crates/qdropd/src/connection.rs:178-222 | before the idle deadline a turn ends the loop for a failed write, for a failed hand-off or a gone reader or application, or for a failed reader, each if and only if that happened |
| `Connection.NeverIdlesOut` | crates/qdropd/src/connection.rs:168-224 | two such loops, each receiving what the other wrote, with interval + delay + start skew below the timeout never idle out |
| `Connection.Runner.constructor` | crates/qdropd/src/connection.rs:168-174 | the deadline starts one timeout away |
| `Connection.Runner.Run` | crates/qdropd/src/connection.rs:142-227 | the loop stops at the first turn that gives a reason, idling out exactly after a timeout without a frame; until then peer and hub get exactly what the turns brought |
| `Pairing.KeysAgreeExactly` | crates/qdrop-core/src/pairing.rs:172-246 | a side's sending key is its peer's receiving key if and only if the PINs are equal, and never its own receiving key |
| `Pairing.MoveKeeps` | crates/qdrop-core/src/pairing.rs:163-238 | every read, write and failure keeps both sides on script |
| `Pairing.OkMeansPeerVerified` | crates/qdrop-core/src/pairing.rs:163-238 | wherever the link is cut: a side that succeeded has its peer's exact info, the peer had verified this side's payload, PINs are equal and payloads fit |
| `Pairing.StepsAreBounded` | crates/qdrop-core/src/pairing.rs:163-238 | every step advances one of the two programs |
| `Pairing.NoDeadlock` | crates/qdrop-core/src/pairing.rs:163-238 | when nothing can move both sides have returned |
| `Pairing.Agreement` | crates/qdrop-core/src/pairing.rs:163-283 | on lossless channels runs end within 16 steps: both succeed with each other's exact info if PINs match and payloads fit 4096 bytes, otherwise both fail, with the wrong-PIN error on both sides when only the PINs differ |
| `Pairing.UnfitIsProtocolError` | crates/qdrop-core/src/pairing.rs:207-272 | on lossless channels a side whose peer's payload cannot be read reports a protocol error, whatever the PINs |
| `Pairing.AckExactly` | crates/qdrop-core/src/pairing.rs:219-237 | success exactly on a 1 and a payload that decodes to a 32-byte key; otherwise the peer aborted, or a protocol error |
| `Pairing.RunsToTheEnd` | crates/qdrop-core/src/pairing.rs:163-238 | every run can be carried on until both sides have returned |
| `Pairing.OneSideMayBeLeft` | crates/qdrop-core/src/pairing.rs:216-223 | whenever pairing would succeed, one fault in the last step leaves one side paired and the other with an error |
| `Pairing.FaultsDecide` | crates/qdrop-core/src/pairing.rs:163-238 | in every finished run with faults a side succeeds if and only if PINs match, payloads fit and none of its own reads and writes failed; so the two outcomes agree if and only if both sides or neither had a failure |
| `PairingWire.ChunkRoundTrip` | crates/qdrop-core/src/pairing.rs:250-275 | a written chunk is read back if and only if it has 1 to 4096 bytes; otherwise a protocol error |
| `PairingWire.ChunkTruncated` | crates/qdrop-core/src/pairing.rs:265-283 | a chunk cut anywhere reads as the peer aborting |
| `PairingWire.Be16IsBigEndian` | crates/qdrop-core/src/pairing.rs:253-269 | chunk lengths have the most significant byte first |
| `PairingWire.CryptoExists` | crates/qdrop-core/src/pairing.rs:172-214 | for every exchange there are byte functions with the lengths and the key agreement assumed, so the assumption excludes none |
| `PairingWire.WireReadsBack` | crates/qdrop-core/src/pairing.rs:185-283 | the bytes of a peer's items, cut anywhere, read as exactly the items completely there and then as the peer aborting |
| `PairingWire.WireDecides` | crates/qdrop-core/src/pairing.rs:185-237 | in every reachable state of the symbolic exchange, whatever part of the peer's bytes arrives: a side accepts if and only if all of them do, the peer has verified it, the PINs agree and the payload fits; and then with the peer's exact info |
| `PairingWire.WritesTheScript` | crates/qdrop-core/src/pairing.rs:185-218 | what a side writes are exactly the bytes of the items the symbolic side sends after the same reads |
| `PairingWire.WriteChunk` | crates/qdrop-core/src/pairing.rs:250-257 | appends exactly the chunk's bytes, or nothing when it is 64 KiB or longer |
| `PairingWire.ReadChunk` | crates/qdrop-core/src/pairing.rs:265-283 | consumes exactly what the specification reads, or fails as it does |
| `PairingWire.Confirm` | crates/qdrop-core/src/pairing.rs:207-237 | succeeds if and only if tag, acknowledgement and payload are right; a wrong-PIN error if and only if a tag arrived and differs; answers 1 or 0 to a tag, nothing without one |
| `PairingWire.Exchange` | crates/qdrop-core/src/pairing.rs:163-238 | on any input bytes: success with this info if and only if the own payload is under 64 KiB and the input is acceptable; a wrong-PIN error if and only if a tag was reached and differs; the bytes written are exactly those determined by what was read |
| `Addresses.StableByRank` | crates/qdrop-core/src/pairing.rs:337-343 | sorting increasing addresses stably by rank gives the order by rank, then address |
| `Addresses.SortedDialable` | crates/qdrop-core/src/pairing.rs:320-343 | exactly the dialable addresses, each once, strictly increasing by (rank, address) |
| `Addresses.BestFirst` | crates/qdrop-core/src/pairing.rs:328-342 | routable addresses before loopback ones, IPv4 before IPv6 within each, equal kinds in address order |
| `Addresses.DialableExactly` | crates/qdrop-core/src/pairing.rs:320-325 | exactly the unspecified addresses and fe80::/10 are left out |
| `Addresses.LessExactly` | crates/qdrop-core/src/pairing.rs:339-340 | address order: IPv4 first, then address, port, flow label, scope |
| `Addresses.CanonicalUnique` | crates/qdrop-core/src/pairing.rs:337-343 | there is only one such list, so order and repetitions of the input do not matter |
| `Pin.PinOfExact` | crates/qdrop-core/src/crypto.rs:17-27 | a sample gives this six-digit PIN if and only if it is congruent to its value modulo a million |
| `Pin.PinsAreUnbiased` | crates/qdrop-core/src/crypto.rs:17-27 | every six-digit PIN is given by exactly 4294 accepted samples |
| `Pin.GenPin` | crates/qdrop-core/src/crypto.rs:17-27 | the first accepted sample decides; all before it were rejected |

## Left out

- TLS, certificates, device identities, and the internals of SPAKE2, HMAC and SHA-256 (`tls.rs`, `secure.rs`, `identity.rs`).
- msgpack, JSON, TOML and base64: decoding is assumed to undo encoding.
- mDNS discovery, pairing rendezvous and `connect_any`: discovery is an arbitrary stream of found and lost events.
- The system clipboard and image transcoding: a cell with a token and what a snapshot reads.
- Recording clips in the history from the sync loop, and the `ClipSend` control request, which broadcasts by itself outside the sync loop.
- `auth.rs`, `backoff.rs`, `is_allowed_url`, `Caps::intersect`, `ct_eq`, `ago`: settled by one reading.
- `PeerBus::broadcast` and `send_to`: the bus is the manager's map of channels; a full or closed channel is a lost message of the sender's model.
- The handshake before `run`, the command line, control socket, configuration and logging.
- A sender that restarts, and counts ids from 1 again, while a receiver remembers its old ids (see the assumption on ids).
- Errors of `flush` and `sync_all` at the end of a file, which `on_end` ignores: a failed last buffered write would still be committed.
- Crashes in the middle of an operation and failed deletes, which the code ignores.
- Sockets that reset with data unread: in pairing without faults a closed channel still delivers what was written; with faults any pending read or write may fail.
- Bounded socket buffers: a pairing write never blocks.
- The standard library's sorting algorithm: any stable sort, here insertion.
- The interleaving of frames within one manager event or one blob frame: each is one step.
- The sender's acknowledgement map and its timers: a wait ends with a verdict the receiver issued, or fails at any time.
- The addresses remembered for connected peers in the daemon state.
- Wrapping of transfer ids, ping numbers and clipboard sequence numbers at 2^64.
