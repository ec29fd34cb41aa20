# Verified model of Kari's sync core

This project models, in Dafny, the parts of Kari that have to stay right while networks, processes
and users misbehave, and proves what they promise over every input and every run.

| module | what it models |
|---|---|
| SyncthingConfig, Reconciler | the fail-closed reconciler of the Syncthing configuration: cleanup before widening, retries, the blocked latch; puts may fail at any point and may or may not have landed |
| RestClient, RestTicks | the read, overlay and write-back of a folder document over REST, against the whole-replace client, and whole ticks over it |
| FileModel, Replication, Rescan, Manifest, Engine, Receive, Peers | two-peer file replication: manifests, last writer wins with tombstones, rescans, sending with rollback and resume, verified receiving, and the engine's operations as steps of the exchange |
| Outbound, Session | what a sync session queues and puts on the wire, with its control-only, cancelled and delete-suppressed gates |
| LocalExec | request routing between bridges and sessions, one step per critical section |
| PasteParser, PasteCalls, Sniffer | the bracketed-paste sniffer on the way to the remote terminal: a byte-by-byte reference, what one call makes of a chunk, the object itself |
| KittyFilter | the terminal escape filter; token shapes follow sections 5.4 and 5.6 of ECMA-48 |
| SyncTask | the sync task manager and the barrier snapshot that drives it |
| Membership | membership generations and leases, over any interleaving of sessions |
| IncomingHistory, OutputCap | the pre-image cache and the output cap of a command |
| Gitignore, GitignoreLines | the managed block in .gitignore, as text and line by line |
| Wrappers, ByteSeq, Sequences | options, bytes, insertion into an ordered list |

Objects that the program updates in place are classes here, with the same fields and one method per
operation, and each method is proved against a function or a relation on its state; the theorems over
runs are lemmas about those. Loops over Go maps are loops over sets in any order, so no result depends on
the order of iteration.

A disk is a map from paths to bytes and times, the wire a sequence of frames, the clock an argument.
SHA-256 is a function, assumed injective where contents are compared. Calls that may fail do so by
an unconstrained choice, or say by an argument whether they do.

Some properties do not hold of the code as stated, and the exact conditions are proved instead:

- Merging the .gitignore block is idempotent if and only if the text has no marker or its first begin
  marker comes before its first end marker. The comment at internal/syncd/gitignore.go:77-80 promises that user
  content is preserved verbatim; with a lone begin marker the second merge drops the text after it
  (LoneBeginIsNotIdempotent).
- The REST put agrees with the whole-replace put if and only if path, type and label are asserted or
  were empty (EmptyTypeShowsThrough). Ticks over the REST client therefore converge if and only if type and
  path of every desired folder are asserted or empty on the server (RestTicksConvergeIff). One folder for which
  they are not keeps every tick in its cleanup pass, and no folder at all is created, unpaused or
  shared any more (UnsayableStarvesAll).
- The escape filter compares numbers in wrapping 64-bit integers, so an OSC number that is 10 or 11 modulo
  two to the sixty-fourth is dropped too (OtherCommandIsDropped).
- The fast rescan is exact if and only if no file on disk has the time, size and identity of the one last
  recorded and other bytes (RewriteBehindTheStampIsMissed). It is not enough that every edit moves the
  time, which may move back (MovingTheTimeBackIsMissed).
- The installed bytes are the verified ones if and only if the staging file was cut, or nothing was
  resumed, or what was left does not reach beyond what came in; the code ignores a failed truncation
  (StaleTailIsInstalled).
- A stream error moves the deadline of a lease later if and only if it went unauthorized for longer than the
  grace offset (StreamErrorMayHelp).
- A timeout close hits a lease that is still run out if and only if nothing reauthorized the lease between
  the reading and the close (TouchMayComeTooLate).
- The output cap keeps a window within its rate if and only if no read in it crosses the byte cap with more
  room left under the cap than in the window (AcceptedInWindowIff); such a read passes whatever room the cap
  has (CrossingExceedsRate).
- One call of the paste sniffer passes its bytes on, or holds them back, without losing or adding any, if and
  only if in no place of it the bytes before an ESC overflow the paste while that ESC begins a whole end marker
  or none (VerbatimIffNotAnomalous). In the first case a begin marker goes out twice (SecondBeginGoesOut),
  in the second the ESC is lost (EscIsLost). The comment at internal/ptyinput/sniffer.go:237-239 promises
  that the paste is let go as raw bytes.
- The sniffer's flush lets out what is held back as it came if and only if no paste is open, or an open one
  has a body and no end marker has begun (FlushIsVerbatimIff); else the begin marker stays behind, or the bytes
  after the body go out before it (EscGoesOutFirst). The comment at internal/ptyinput/sniffer.go:215-216
  promises that anything still buffered is forwarded as it is.

To check everything: `dafny verify dfyconfig.toml`.

## Model

| member | source | states |
|---|---|---|
| Reconciler.TwoTicksConverge | internal/syncthing/reconciler.go:613-775 | From any valid configuration and valid desired state two error-free unblocked ticks reach: options equal, every desired folder present and matching in paused, type, path and device identifiers, every other folder paused; one tick is enough when nothing needed repair; the next tick writes nothing and changes nothing |
| Reconciler.EveryRunCanConverge | internal/syncthing/reconciler.go:613-775 | After any run, with any failures, from a valid start, two error-free ticks reach the desired configuration unblocked; if the latch was closed, the first of them has to be an operator retry |
| Reconciler.RunKeepsValid | internal/syncthing/reconciler.go:613-775 | Over every run, with any failures, a valid configuration stays valid as long as what is desired is |
| Reconciler.WideningNeedsCleanUnblockedTick | internal/syncthing/reconciler.go:640-772 | A tick, with any of its puts failing at any point, creates, unpauses or gives a device to a folder only if it began unblocked and found nothing to repair |
| Reconciler.WideningInRuns | internal/syncthing/reconciler.go:641-772 | The same over every run of ticks, operator retries and changes of the desired state; changing the desired state alone never widens anything |
| Reconciler.BlockedRunsOnlyNarrow | internal/syncthing/reconciler.go:801-858 | Over any run without an operator retry that starts blocked the latch stays closed, no folder appears, pauses stay on and device sets only shrink, from start to end |
| Reconciler.LatchOpensOnlyByOperator | internal/syncthing/reconciler.go:801-832 | A run from blocked to unblocked contains an operator retry whose tick succeeded and reached its goal |
| Reconciler.ConvergedMeansNothingToWrite | internal/syncthing/reconciler.go:912-945 | The drift comparison finds nothing to write if and only if the configuration is the desired one |
| Reconciler.CleanupIsValid | internal/syncthing/reconciler.go:951-959 | A cleanup folder is valid again and needs no further cleanup |
| Reconciler.GoalIsTickDone | internal/syncthing/reconciler.go:613-775 | What one error-free tick leaves, folder by folder: options as desired; unknown folders paused and otherwise as they were; while anything is out of line, each folder that is gets paused, with path, type and label as desired and exactly those of its devices that are desired, and all others stay; when nothing is and the latch is open, each missing or lacking folder becomes the desired one; no folder goes and none but desired ones appear |
| Reconciler.TicksTakeOnlyStrays | internal/syncthing/reconciler.go:613-775 | A tick with any of its puts failing keeps every device that is both on a folder and desired there, and of an unknown folder may change the pause only |
| Reconciler.DesiredDevicesStay | internal/syncthing/reconciler.go:613-832 | Over any run of ticks and operator retries, whatever fails, blocked or not, such a device is never taken off |
| Reconciler.IntersectDevices | internal/syncthing/reconciler.go:990-1002 | The devices of both sides by identifier, every one as the actual side has it; the actual list itself when the desired one covers it |
| Reconciler.CleanupMarkClosesFolder | internal/syncthing/reconciler.go:569-588 | After marking a folder for cleanup one error-free tick, blocked or not, leaves it paused and shared with the server alone |
| Reconciler.Reconciler.SetDesired | internal/syncthing/reconciler.go:185-235 | Lists with a duplicate or empty identifier, and no others, are rejected with nothing changed |
| Reconciler.Reconciler.UpdateDesiredFolder | internal/syncthing/reconciler.go:493-513 | Replaces or adds one folder of the desired state and touches nothing else |
| Reconciler.Reconciler.MarkDesiredCleanup | internal/syncthing/reconciler.go:569-588 | The folder becomes paused and shared with the server alone, and everything else of it stays |
| Reconciler.Reconciler.EnterBlocked | internal/syncthing/reconciler.go:845-858 | The latch is closed with the latest reason; only the step from open to closed is counted |
| Reconciler.Reconciler.PutWithRetry | internal/syncthing/reconciler.go:872-898 | At most one attempt per backoff, and every one of them before giving up; success leaves the put applied and the latch alone; exhaustion closes the latch; in every case the configuration is the old one or the one with the put applied |
| Reconciler.Reconciler.QuarantineUnknown | internal/syncthing/reconciler.go:655-683 | Every unknown folder that is not paused is paused and no other folder changes; an error leaves some of these changes made |
| Reconciler.Reconciler.CleanupPass | internal/syncthing/reconciler.go:685-742 | Every folder that differs in a fail-closed way is put right as said above, and the pass reports whether there was one |
| Reconciler.Reconciler.ForwardPass | internal/syncthing/reconciler.go:744-772 | Missing and widening folders are put as desired |
| Reconciler.Reconciler.ReconcileLocked | internal/syncthing/reconciler.go:613-775 | One tick without an error does to every folder what is said above, from the configuration it read; with an error it gets part of the way there and still takes nothing but strays; it never opens the latch |
| Reconciler.Reconciler.OperatorRetry | internal/syncthing/reconciler.go:801-832 | Refused when not blocked; otherwise one tick with the latch open and all that it does, after which the latch is open exactly if the tick succeeded |
| SyncthingConfig.Client.Put | internal/syncthing/client.go:162-187 | A folder without identifier, with an unknown type or with an unnamed or repeated device is refused without effect; a valid write replaces exactly the named folder or the options, and a failed call leaves either the old or the new configuration |
| RestClient.RestClient.PutFolder | internal/syncthing/rest_client.go:195-228 | Read, overlay, write back: the stored document is the overlay of the old one, and a failing put leaves the old document or that one; over a server that answers it succeeds if and only if the folder is valid and the old document is an object with a device array |
| RestClient.RawFolder.Overlay | internal/syncthing/rest_client.go:379-426 | Writes the keys Kari owns, leaves path, type and label alone when they are empty, fails on a malformed device array |
| RestClient.MergeDeviceArray | internal/syncthing/rest_client.go:453-489 | Fails if and only if the old value is not an array of objects; otherwise one object per desired device, in order, over the old object of that device |
| RestClient.RetainedIsLast | internal/syncthing/rest_client.go:453-489 | Of several old objects with the identifier of a device the last one counts |
| RestClient.PutKeepsForeignKeys | internal/syncthing/rest_client.go:379-426 | Every key Kari does not own is there afterwards with its old value if and only if it was there before |
| RestClient.PutKeepsForeignDeviceFields | internal/syncthing/rest_client.go:453-489 | Every field of a retained device but its identifier, and its name when Kari gives one, survives |
| RestClient.PutIsIdempotent | internal/syncthing/rest_client.go:379-426 | Putting the same folder twice is putting it once |
| RestClient.PutDecodes | internal/syncthing/rest_client.go:195-228 | A decodable document stays decodable, and decodes to the put folder with empty path, type and label showing the old values through, and every device Kari names with the name it gives |
| RestClient.PutAgreesWithWholeReplaceIff | internal/syncthing/fake.go:108-155 | The REST put and the whole-replace put agree up to device names if and only if each of path, type and label is asserted or was empty on the server |
| RestClient.EmptyTypeShowsThrough | internal/syncthing/rest_client.go:379-426 | A document with a type and a folder put without one: the type stays, where the whole-replace put would clear it |
| RestClient.CleanupSettlesIffTypeAndPathAreAsserted | internal/syncthing/rest_client.go:379-426 | However often it is cleaned up through this client, a folder settles if and only if type and path are asserted or empty on the server; it stays paused meanwhile |
| RestTicks.RestTicksConvergeIff | internal/syncthing/reconciler.go:613-775 | Over any number of error-free unblocked ticks, at least two, whose every put is the read, overlay and write-back of a document: the configuration read at the end is the desired one if and only if for every desired folder that was there type and path are asserted or empty on the server |
| RestTicks.UnsayableStarvesAll | internal/syncthing/reconciler.go:685-772 | If one folder is not so, every state of every such run needs repair, and from start to end no folder appears, is unpaused or gains a device |
| RestTicks.RepairIsAPut | internal/syncthing/rest_client.go:195-228 | In any order of the folders the documents of a repairing tick change by one put after another |
| RestTicks.ForwardIsAPut | internal/syncthing/rest_client.go:195-228 | The same for a tick that creates and widens |
| RestTicks.PutGoesThrough | internal/syncthing/rest_client.go:379-426 | What is read after a put is well formed again and is the folder put, with an empty type and path showing the old ones through |
| Replication.DiffManifests | internal/filesync/manifest.go:172-235 | The files to send are exactly the live ones the peer lacks (never heard of, deleted earlier, interrupted, or older and different), each with the resume point the peer shows for it or none; the deletes are exactly the tombstones newer than a live file of the peer; of two remote entries for a path the later counts |
| Replication.NotBothAct | internal/filesync/manifest.go:172-235 | For no path do both peers have something to send |
| Replication.ExchangeConverges | internal/filesync/manifest.go:172-235 | However comparing, sending and applying interleave on the two sides, at the end of an exchange the two sides disagree on a path if and only if they disagreed before with equal time stamps, and neither has anything left to send |
| Replication.LastWriterWins | internal/filesync/receive.go:149-221 | The entry that wins the comparison is what the other side ends with, contents and time |
| Replication.NoResurrection | internal/filesync/receive.go:259-299 | In every state of every exchange a deletion newer than the peer's copy is not undone, and at the end nobody has the file |
| Replication.SettledUnlessTie | internal/filesync/manifest.go:172-235 | Where neither side acts, the two agree or their stamps are equal |
| Replication.RunKeepsPathInv | internal/filesync/manifest.go:172-235 | The invariant of one path over every run: who wins, what is queued, what is under way and what has landed |
| Replication.ExchangeShrinks | internal/filesync/manifest.go:172-235 | Every step of an exchange brings it nearer its end |
| Replication.NotStuck | internal/filesync/manifest.go:172-235 | An exchange that is not finished can take a step, so every exchange ends |
| FileModel.SameContentIsEquivalence | internal/filesync/eol.go:153-161 | With injective digests the comparison holds exactly for equal bytes, or for text that differs in carriage returns only |
| FileModel.ComputeFileHashes | internal/filesync/eol.go:172-213 | Reading block by block gives the digest of the whole file, of the file without carriage returns for text, and its size, wherever the block boundaries fall |
| Engine.Engine.Snapshot | internal/filesync/watch.go:91-164 | A rescan refreshes the entry of every file found, which are those the ignore rules let through, turns every indexed file that was not found into a tombstone, and changes nothing when the walk fails or the root does not answer |
| Rescan.FastScanIsExactIffNothingRewritten | internal/filesync/watch.go:300-393 | In any state whose entries describe the files last recorded, the fast rescan reports what a full one would if and only if no file on disk has the time, size and identity of the recorded one and other bytes |
| Rescan.RunKeepsDescribed | internal/filesync/watch.go:91-164 | Over every run of rescans, recorded sends, clean installs, losses, retry marks and workspace edits each entry with a digest describes the file last recorded for its path |
| Rescan.ScansStayExact | internal/filesync/watch.go:91-164 | If no two files a path ever held share time, size and identity unless their bytes are equal, every fast rescan of every run is exact |
| Rescan.RewriteBehindTheStampIsMissed | internal/filesync/watch.go:300-393 | A run in which an edit keeps time, size and identity and the next rescan is wrong |
| Rescan.MovingTheTimeBackIsMissed | internal/filesync/watch.go:300-393 | A run in which each of two edits moves the time, the second one back, and the next rescan is wrong |
| Rescan.ManifestShowsReplica | internal/filesync/manifest.go:61-127 | At any point of any such run the manifest shows, path by path, the replica the exchange theorems speak of, without what the ignore rules hide, and resume points for paths that are neither live nor dead |
| Rescan.SameEntriesSameDecision | internal/filesync/manifest.go:172-235 | Decisions do not depend on the version of a live entry, so engine and exchange model send the same |
| Engine.Engine.Manifest | internal/filesync/manifest.go:61-127 | Every path shows as live, else as tombstone, else as resume point, else not at all; the three parts follow one another, each sorted by path |
| Manifest.ManifestIsDetermined | internal/filesync/manifest.go:57-127 | Equal states give equal manifests, whatever order the maps are walked in |
| Manifest.SortedPaths | internal/filesync/manifest.go:80-84 | Exactly the given paths, in strictly increasing order |
| Engine.OfflineDeleteReachesPeer | internal/filesync/watch.go:91-164 | A path in the index and gone from disk becomes a tombstone, is removed from a peer whose copy is older, and is back here in no state of any such exchange |
| Engine.Engine.SendFile | internal/filesync/send.go:85-314 | A send fails only if the wire does or the source cannot be read through; a failed one leaves index and tombstones as they were; it is swallowed if and only if it is the echo of what just came in; it sends nothing if and only if it is unforced and unchanged; a completed one records the new entry, drops the tombstone and has put exactly one whole transmission on the wire, whose first frame goes on behind the peer's bytes if and only if they are the beginning just read |
| Engine.Engine.SendOrPrune | internal/filesync/send.go:85-314 | A path that is ignored or not there goes out as a delete; a file that just came from the peer, or one the index has when not forced, leaves the wire alone; any other goes out whole if the wire holds and the source can be read through; paths that are neither it nor ignored are not touched |
| Engine.Engine.Stream | internal/filesync/send.go:163-292 | Completes whenever the wire holds and no read fails; then it is the header, the numbered chunks and a final digest over the prefix and the bytes in fact sent |
| Engine.Engine.Push | internal/filesync/send.go:163-314 | Completes whenever the wire holds and the source can be opened, rewound and read; otherwise the optimistic update of index and tombstones is undone |
| Engine.Engine.SendDelete | internal/filesync/send.go:325-344 | The tombstone is kept in every case; a suppressed delete never reaches the wire, and any other fails only if the wire does |
| Receive.ReceiveTransmission | internal/filesync/receive.go:47-221 | A whole transmission, frame by frame, through opening, every write and the commit. The writes go through if and only if the disk takes as many chunks as come; then, if the file closes and renames, it is accepted if and only if the prefix the receiver kept is the one the sender's digest covers, however the source changed while it was read; an accepted file is installed as in the exchange model, a refused one changes nothing; and the installed bytes are the verified ones if and only if the staging file was cut, or nothing was resumed, or what was left does not reach beyond what came in |
| Receive.Transfer | internal/filesync/send.go:163-292 | From sending engine over the wire to receiving engine: a due file whose source can be read through is sent if the wire holds, and the frames put on the wire are the ones received; if the receiver's disk takes them, it is accepted if and only if nothing was resumed or the kept bytes have the digest the peer advertised; then the receiver's replica is the old one with the file applied, otherwise the old one |
| Receive.ReceiveFile | internal/filesync/receive.go:47-221 | Opening, writing all blocks and committing: the writes go through if and only if the disk takes every block; then it is one step of the exchange model, accepted if and only if it closes, has the promised digest and, unless a newer copy is kept, renames; otherwise nothing changes |
| Receive.PendingWrite.constructor | internal/filesync/receive.go:47-122 | The digest starts with the advertised bytes of the staging file if it is long enough and readable, else with nothing; the file holds the same, and the rest of what was left only if cutting it failed |
| Receive.PendingWrite.Write | internal/filesync/receive.go:128-141 | A write that lands appends to what the digest has seen and overwrites the file from there on; one that does not leaves the file broken |
| Receive.PendingWrite.Commit | internal/filesync/receive.go:149-221 | Succeeds if and only if the file closes, the fed bytes have the promised digest and, unless a strictly newer local copy is kept, the rename works; then file, index, tombstone, echo suppression and resume point are updated together, for a newer copy the index alone, otherwise nothing |
| Receive.DigestsMatchIffPrefixesDo | internal/filesync/send.go:163-292 | With injective digests two prefixes of the same data give the same digest if and only if they are equal |
| Receive.StagedIsAssembledIff | internal/filesync/receive.go:73-103 | The staging file holds exactly what the digest has seen if and only if it was cut, or nothing was resumed, or what was left does not reach beyond what came in |
| Receive.PrefixKeptIffEtagMatches | internal/filesync/send.go:180-215 | The prefix kept is the one the sender read if and only if it has the advertised digest, or nothing was resumed |
| Receive.StaleTailIsInstalled | internal/filesync/receive.go:73-103 | Three bytes left over, a cut that fails and one byte coming in: the file is accepted, and a stale byte is installed with it |
| Engine.Engine.ApplyDelete | internal/filesync/receive.go:259-299 | Nothing for an ignored path; otherwise the delete step of the exchange model: a strictly newer copy is kept, else file and entry go and the tombstone carries the version, or now when it is 0 |
| Engine.Engine.Prune | internal/filesync/receive.go:452-500 | All tracked ignored paths but .gitignore go from disk and index and become tombstones, and the peer is told of each; a delete-suppressed engine tells nothing; it stops short only at a file that cannot be removed or a wire that fails |
| Peers.CompareStep | internal/filesync/manifest.go:172-235 | Comparing two manifests that show two replicas sends and deletes exactly what the exchange model queues |
| Peers.ManifestIsShown | internal/filesync/manifest.go:61-127 | At any point of any run a rescan gives such a manifest, and lists no path twice |
| Peers.TransmitStep | internal/filesync/send.go:85-344 | Carrying out a queued task over a wire that holds is the transmission step of the exchange: the sender's replica and queue and the message in the frames are those of the model |
| Peers.ReceiveStep | internal/filesync/receive.go:47-221 | Receiving a transmission on a disk that takes it, with the prefix kept and nothing stale beyond it, is the application step of the exchange, newer local copies included |
| Peers.DeleteStep | internal/filesync/receive.go:259-299 | Applying a delete is the application step of the exchange |
| Peers.InterruptedFileCompletes | internal/filesync/manifest.go:217-223 | A file interrupted while it came in: the comparison with the manifest that shows its resume point sends it from there, and the receiver ends with all of the file, whether what it had kept was its beginning or not |
| Peers.EchoIsNotSentBack | internal/filesync/send.go:105-113 | A file just received is not sent back: the next send of it leaves the wire alone |
| Session.Session.Run | internal/filesync/session.go:1391-1541 | For every sequence of inbound messages and local events: they are handled one after another, each with the effect stated for it, until one ends the session; a control-only session without a local resume sends no manifest, file data or delete; a delete-suppressed session never sends a delete |
| Session.Session.Handle | internal/filesync/session.go:1902-2589 | Everything each message or event does to session, queue, wire and engine, and when it ends the session: among others, a manifest queues what the peer lacks, a wake sends what is queued, the fallback sends every file, a delete or file of the peer's is applied as the engine promises and answered, a cancel stops and empties the queue, a control-only session ignores manifest, status and resume, and the gates that were shut stay shut |
| Session.Session.HandlePeer | internal/filesync/session.go:1902-2589 | The same for each message of the peer's |
| Session.Session.ReceiveOne | internal/filesync/session.go:2061-2204 | An incoming file of an ignored path leaves everything as it was and counts as fine; one the disk does not take leaves the replica as it was and does not; any other is accepted, and installed, if and only if it closes, has the promised digest and, unless a newer copy is kept, renames |
| Session.Session.Start | internal/filesync/session.go:1378-1541 | Hello is first on the wire; a control-only session then sends nothing, a paused one its cancel, any other its manifest if one can be built; all of it goes out unless the wire fails; outbound traffic starts stopped in the first two |
| Session.Session.ResumeDownload | internal/filesync/session.go:562-628 | Resume and our manifest go out together, and then and only then does outbound traffic flow again; nothing happens without a manifest |
| Session.Session.EnqueueDiff | internal/filesync/session.go:1941-2022 | After a rescan, path by path: a live file the peer lacks is queued with the resume point, a tombstone newer than the peer's file as a delete unless deletes are suppressed, and nothing else is touched; a paused queue takes only exempt paths |
| Session.Session.RetryAfterPeerError | internal/filesync/session.go:2632-2659 | A live file is marked for resending, a tombstone queued unless deletes are suppressed or the queue is paused, an unknown path ignored |
| Session.Session.DrainOutbound | internal/filesync/session.go:1769-1829 | A stopped session discards its queue and sends nothing; on a wire that holds, unless a cancel comes in before the queue is through, every queued file that is due and can be read is on the wire from first frame to last, every queued path that is not there and every queued delete as a delete unless deletes are suppressed, and the session goes on |
| Session.Session.SendTask | internal/filesync/session.go:1831-1880 | A queued change sends the file unless the index has it, a queued difference sends it from the peer's resume point, either one a delete if the file is not there; a queued delete goes out with its version; suppressed deletes stay local, and other paths are left alone |
| Session.Session.SendSnapshot | internal/filesync/send.go:19-37 | On a wire that holds, with sources that can be read, every file a rescan finds is on the wire from first frame to last unless it just came from the peer |
| Session.Session.Enqueue | internal/filesync/outbound_queue.go:56-77 | The last task for a path wins; a paused queue takes only exempt paths |
| LocalExec.RunKeepsInv | cmd/karid/local_exec_route.go:81-197 | Over every interleaving of the critical sections, with fresh identifiers, tables, routes, waiters and closes stay consistent |
| LocalExec.RoutingIsConsistent | cmd/karid/local_exec_route.go:81-107 | The request table and the bridges' request sets describe each other exactly, an unregistered bridge leaves no request, no channel is closed twice |
| LocalExec.OnlyTheRemoverCloses | internal/filesync/session.go:1160-1259 | A channel still in the table is open, and one about to be closed is out of the table and closed only once |
| LocalExec.NoOrphanedWaiter | cmd/karid/local_exec_route.go:135-197 | With all started cleanups done, a waiter is in the table only while its call is being dispatched or its bridge is registered |
| LocalExec.RegisterEnters | cmd/karid/local_exec_route.go:113-150 | With the bridge still there the request is entered in both tables and Route returns, otherwise its session is to be told to give it up and Route fails; nothing else changes |
| LocalExec.RequestStays | cmd/karid/local_exec_route.go:113-150 | From then on it stays in the table until it is cleaned up or its bridge goes |
| LocalExec.TeardownCancelsAll | cmd/karid/local_exec_route.go:81-106 | A bridge that goes takes exactly its requests with it, and each of their sessions is to be told once |
| LocalExec.DoneReleases | internal/filesync/session.go:2503-2523 | Over every run, the word that a request is done releases its caller for good if it comes from the session the request went to, and does nothing otherwise |
| LocalExec.EveryCallerIsReleased | cmd/karid/local_exec_route.go:81-197 | Once a registered request is gone from the table, and what was to be told and closed has been, the channel of its caller is closed |
| Sniffer.Sniffer.Feed | internal/ptyinput/sniffer.go:103-213 | For every chunk and state, what goes out, what is held back and the mode afterwards are those of the call specification; as long as no paste outgrows the cap they are those of the byte-by-byte reference parser; output only grows and no more than a paste of the cap's length and part of a marker is held back |
| Sniffer.Sniffer.FeedStream | internal/ptyinput/sniffer.go:103-213 | Every stream in every cutting ends as the call specification says; a clean one, whatever the size of its pastes, loses, adds and reorders nothing, and where nothing is uploaded is forwarded as it came; one whose pastes fit the cap is clean and forwards what the whole stream in one piece would |
| Sniffer.Sniffer.FeedInserts | internal/ptyinput/sniffer.go:103-336 | Any text and pastes within the cap, one after another and in any cutting: the remote gets exactly the same bytes with the path in place of the body of every paste that was uploaded |
| PasteCalls.VerbatimIffNotAnomalous | internal/ptyinput/sniffer.go:103-253 | For every cap, state and chunk: what one call lets out, in original bytes, followed by what it holds back, is what was held followed by the chunk, if and only if nowhere in the call the bytes before an ESC overflow the paste while that ESC begins a whole end marker or none |
| PasteCalls.CleanStreamConserves | internal/ptyinput/sniffer.go:103-253 | A stream of calls without such a place loses, adds and reorders nothing, pastes beyond the cap included |
| PasteCalls.ChunkIsRun | internal/ptyinput/sniffer.go:103-213 | Within the cap the call specification is the reference parser, and the call conserves |
| PasteCalls.StreamIsRun | internal/ptyinput/sniffer.go:103-213 | The same for a stream in any cutting |
| PasteCalls.SecondBeginGoesOut | internal/ptyinput/sniffer.go:240-253 | With a cap of one, a paste of two bytes in one call is forwarded with a second begin marker before its end |
| PasteCalls.EscIsLost | internal/ptyinput/sniffer.go:240-253 | With a cap of one, an ESC behind two pasted bytes is neither forwarded nor held back |
| Sniffer.Sniffer.Flush | internal/ptyinput/sniffer.go:217-235 | The beginning of a marker goes out first, then an open paste with its begin marker if it has a body |
| Sniffer.Sniffer.FeedToEnd | internal/ptyinput/sniffer.go:217-235 | A clean stream has, after its flush, gone out exactly as it came if and only if no paste is open at the end, or an open one has a body and no end marker has begun |
| PasteCalls.FlushIsVerbatimIff | internal/ptyinput/sniffer.go:217-235 | The same for any state in which an open paste awaits its end marker |
| PasteCalls.EscGoesOutFirst | internal/ptyinput/sniffer.go:217-235 | A paste of one byte cut off behind an ESC is flushed with the ESC before the begin marker |
| PasteParser.RunConcat | internal/ptyinput/sniffer.go:103-213 | The reference on p followed by q is the reference on p and then on q |
| PasteParser.RunConserves | internal/ptyinput/sniffer.go:240-253 | Pieces passed on, in their original bytes, followed by the bytes held back, are exactly the bytes held before followed by the input |
| PasteParser.FirstBeginOpens | internal/ptyinput/sniffer.go:103-213 | Outside a paste everything up to the first begin marker passes as it is, and that marker opens a paste |
| PasteParser.FirstEndCloses | internal/ptyinput/sniffer.go:103-213 | Inside, everything up to the first end marker is the body, and that marker closes the paste |
| PasteParser.InsertsArrive | internal/ptyinput/sniffer.go:103-336 | The same for the reference: every upload takes the place of its paste, and everything else passes as it is |
| Sniffer.Sniffer.Accumulate | internal/ptyinput/sniffer.go:240-253 | Within the cap the body grows; over it the begin marker and all collected bytes are let go as they came |
| Sniffer.Sniffer.HandlePaste | internal/ptyinput/sniffer.go:264-336 | Forwards the begin marker, then the path the paste was uploaded to if it was and the paste itself if not, and the end marker |
| PasteParser.MatchPrefixTells | internal/ptyinput/sniffer.go:352-363 | A whole marker, a proper beginning of one at the end of the input, and no match are told apart, each exactly when it is there |
| PasteParser.NoEscBefore | internal/ptyinput/sniffer.go:340-347 | No ESC comes before the one found, or before the end if there is none |
| KittyFilter.FilterPrintsKeptTokens | cmd/kari/kitty_filter.go:49-220 | For every list of well-formed tokens the output is the printed tokens without the kitty keyboard sequences and colour queries, and the filter is back in its start state with an empty buffer |
| KittyFilter.TokenScans | cmd/kari/kitty_filter.go:49-220 | The same for one token: Text, escape, control sequence or operating system command |
| KittyFilter.ScanConcat | cmd/kari/kitty_filter.go:49-220 | Scanning p followed by q is scanning p and then q |
| KittyFilter.CutQueryIsDropped | cmd/kari/kitty_filter.go:123-182 | A colour query that an escape other than its terminator cuts short is dropped up to that escape, and from there on all is read as if it had not been there |
| KittyFilter.OtherCommandGoesOn | cmd/kari/kitty_filter.go:123-218 | Any other command passes as it comes and goes on over an escape that does not end it; a second ESC in a row begins a new one; nothing of it is lost |
| KittyFilter.NumberIsDropped | cmd/kari/kitty_filter.go:224-234 | Every number that is 10 or 11 modulo two to the sixty-fourth makes a dropped token |
| KittyFilter.OtherCommandIsDropped | cmd/kari/kitty_filter.go:224-234 | 18446744073709551626 is one of them |
| KittyFilter.KittyKeyboardFilter.Filter | cmd/kari/kitty_filter.go:49-220 | One call advances the state and outputs as the byte transducer does |
| KittyFilter.KittyKeyboardFilter.FilterStream | cmd/kari/kitty_filter.go:49-220 | Every chunking of the printed tokens outputs the kept tokens |
| KittyFilter.NumberTestIsModular | cmd/kari/kitty_filter.go:224-234 | In wrapping 64-bit integers the number read is 10 or 11 if and only if the decimal value is so modulo two to the sixty-fourth |
| SyncTask.RunKeepsInv | internal/syncd/sync_task.go:270-307 | Over every run no workspace and name has two unfinished tasks with overlapping directions, and every ended task's name is remembered |
| SyncTask.InvMeansOneEach | internal/syncd/sync_task.go:270-307 | No two unfinished tasks of a workspace and name have the same direction, or one of them both |
| SyncTask.TaskMovesForward | internal/syncd/sync_task.go:408-420 | A step moves a task forward or leaves it, an ended one stays exactly as it is, and only a tick later than the retention time evicts it |
| SyncTask.EndedTaskStays | internal/syncd/sync_task.go:706-729 | While it is kept, an ended task shows over any stretch of a run what it ended with |
| SyncTask.CurrentAnswersOnceEnded | internal/syncd/sync_task.go:342-364 | Once a task of a named workspace has ended, the name has an answer for the rest of the run |
| SyncTask.BytesNeverRegress | internal/syncd/sync_task.go:484-496 | With no row beyond its total, over any run shown bytes never go back and never exceed the total, the jump at closing included |
| SyncTask.CountsAreReached | internal/syncd/sync_task.go:443-516 | Over any run, every byte count a running connected task was ever fed is reached, and stays reached |
| SyncTask.RunningShowsProgress | internal/syncd/sync_task.go:443-516 | What a running task shows is the larger of before and now, in bytes and in total, a download counting downloads alone; the time of the last progress moves exactly with the bytes; only closing with everything quiet jumps to the total |
| SyncTask.WaitsNoLonger | internal/syncd/sync_task.go:425-441 | Over any run, the first tick that finds the workspace of a pending task bound and connected starts it, and it never waits again |
| SyncTask.UploadSucceedsIff | internal/syncd/sync_task.go:440-660 | For the reader of one tick: a running upload or both-way task succeeds in a tick if and only if bound, connected, manifest seen, nothing queued, in flight or in error, and quiet |
| SyncTask.DownloadSucceedsIff | internal/syncd/sync_task.go:440-660 | For the reader of one tick: a running download succeeds if and only if bound, connected, manifest seen, and the peer is empty with nothing in flight, or progress has settled, or all is quiet after a commit later than its start |
| SyncTask.FailsIff | internal/syncd/sync_task.go:440-660 | For the reader of one tick: a running task fails if and only if nothing is queued or in flight and either a download heard nothing for the stall time or all is quiet with a transfer in error, with the error text of each; it is cancelled if and only if its workspace is no longer bound |
| SyncTask.DownloadIgnoresUploads | internal/syncd/sync_task.go:484-493 | For the reader of one tick: bytes going up have no influence on a download task |
| SyncTask.DownloadNeedsInbound | internal/syncd/sync_task.go:499-660 | A download from a peer that has files succeeds only after a commit later than its start |
| SyncTask.SaneRowsMakeSaneSnapshot | internal/syncd/sync_task_service.go:314-343 | Rows within their totals give sums within their totals, also over downloads alone |
| SyncTask.BuildBarrierSnapshot | internal/syncd/sync_task_service.go:294-345 | Sums over all rows and over the downloads, the number in flight, whether any row is in error, and the first error text |
| SyncTask.TrimSpaceTells | internal/syncd/sync_task_service.go:294-345 | Trimming an error text takes white space alone, and leaves none at either end |
| SyncTask.SyncTaskManager.Create | internal/syncd/sync_task.go:270-307 | Rejects an empty workspace or unknown direction, returns an unfinished overlapping task unchanged if there is one, otherwise adds exactly one pending task, with nothing done yet |
| SyncTask.SyncTaskManager.Cancel | internal/syncd/sync_task.go:379-402 | Ends an unfinished task as cancelled, with time and reason, and remembers it; an ended or unknown one changes nothing |
| SyncTask.SyncTaskManager.Tick | internal/syncd/sync_task.go:408-420 | Every task that has not ended: a pending one starts, and its clock, if and only if its workspace is bound and connected; a running one is cancelled if its workspace is not bound, waits as it is without a connection, and otherwise shows how far its bytes got; those that ended are remembered, newest last, and the expired ones evicted |
| SyncTask.SyncTaskManager.EvictExpired | internal/syncd/sync_task.go:720-729 | Exactly the tasks that ended longer ago than the retention time go |
| SyncTask.SyncTaskManager.Current | internal/syncd/sync_task.go:342-374 | Answers if and only if a task or a remembered one has the name; an unfinished task goes before an ended one, and among equals the latest started; the remembered one only when there is none |
| Membership.AcceptedIffLastAllocatedUnrevoked | internal/syncthing/membership.go:202-216 | Over every interleaving a generation is accepted if and only if it is the last one allocated for the folder and neither an administrator nor its own lease's close revoked it since |
| Membership.AllocationsStrictlyIncrease | internal/syncthing/membership.go:140-161 | Of two allocations for a folder the later one gets the greater generation, whatever was revoked between, while the 64-bit counter has not wrapped |
| Membership.CloseDisturbsNoOtherHolder | internal/syncthing/membership.go:265-280 | The close of one lease never ends what another lease holds |
| Membership.ClosedForGood | internal/syncthing/lease.go:247-296 | Once paused a lease stays paused, its hook is called at most once, and from then on its generation is never accepted again |
| Membership.TimeoutCloseIsDueIff | internal/syncthing/lease.go:327-341 | Over every run, a timeout close hits a lease still run out at the reading that led to it if and only if no touch or stream error between the two moved the deadline past the reading without a later one moving it back |
| Membership.TimeoutCloseIsDueIffUntouched | internal/syncthing/lease.go:327-341 | With a clock that does not run back and offsets below the timeout: if and only if there was no touch or stream error in between at all |
| Membership.TimeoutCloseWasSeen | internal/syncthing/lease.go:327-341 | Every timeout close of a run goes back to such a reading of the same lease |
| Membership.TouchMayComeTooLate | internal/syncthing/lease.go:327-341 | A run in which a lease is touched a second after its timeout was read and closed all the same |
| Membership.StreamErrorMayHelp | internal/syncthing/lease.go:265-273 | After 50 seconds of silence a stream error moves the deadline from 105 seconds to 110 |
| Membership.StreamErrorSetsDeadline | internal/syncthing/lease.go:265-273 | A stream error sets the deadline to now plus timeout less offset, which is later than before if and only if the lease went unauthorized for longer than the offset |
| Membership.MembershipStore.AllocateGeneration | internal/syncthing/membership.go:140-161 | The next generation, active, with identity rewritten to folder and generation; an empty folder is rejected |
| Membership.MembershipStore.ValidateGeneration | internal/syncthing/membership.go:202-216 | The four verdicts and exactly when each is given |
| Membership.MembershipStore.RevokeIfCurrent | internal/syncthing/membership.go:265-280 | Revokes only the active entry of that generation, keeps the counter, and says whether anything changed |
| Membership.MembershipStore.Revoke | internal/syncthing/membership.go:232-245 | Revokes whatever is active, keeps the counter, and says whether anything changed |
| Membership.MembershipStore.Current | internal/syncthing/membership.go:171-179 | The member of an active entry, with its folder and generation |
| Membership.Lease.ForceClose | internal/syncthing/lease.go:281-296 | Ends paused with the hook called once in the life of the lease |
| Membership.Lease.CheckTimeout | internal/syncthing/lease.go:327-341 | Closes the lease if and only if it ran out, and reports whether it is closed |
| IncomingHistory.LookupIsLastAccepted | internal/syncd/incoming_history.go:85-137 | Over every run, whatever was evicted or replaced, a retained path is looked up to the bytes last accepted for it |
| IncomingHistory.RetainedAreMostRecent | internal/syncd/incoming_history.go:141-158 | With a rising clock, whatever was accepted no earlier than something retained is itself retained; the newest snapshot always is |
| IncomingHistory.NewestSurvives | internal/syncd/incoming_history.go:141-158 | Eviction spares an entry newer than all others |
| IncomingHistory.Store.Snapshot | internal/syncd/incoming_history.go:85-120 | Too large a content or a failed write changes nothing; otherwise the entry is recorded and the oldest evicted, with exactly the blobs of what was evicted and can be removed; the total is the sum of the sizes and within the budget |
| IncomingHistory.Store.Evict | internal/syncd/incoming_history.go:141-158 | What goes is no newer than what stays, no more goes than the budget asks for, its blobs go with it unless they cannot be removed, and the bytes of what stays are untouched |
| IncomingHistory.Store.Get | internal/syncd/incoming_history.go:125-137 | The bytes on disk for an indexed path, none otherwise |
| OutputCap.RunAccounts | internal/syncd/exec.go:473-523 | Over any run of reads the count is the sum of what was read, what passed is within the cap, the window within the rate, and the run is flagged if and only if a byte was dropped |
| OutputCap.RunFromFresh | internal/syncd/exec.go:473-523 | The same from the start of a command |
| OutputCap.SteadyPasses | internal/syncd/exec.go:473-523 | From the start of a command, if all reads together are within the cap and those less than a second apart together within the rate, everything passes and nothing is flagged |
| OutputCap.NothingPassesAfterCrossing | internal/syncd/exec.go:473-489 | After a read that does not fit the byte cap nothing passes any more, so at most one read is let through past the window's rate |
| OutputCap.AcceptedInSecond | internal/syncd/exec.go:490-523 | In every second of every run at most twice the rate passes, plus what the one crossing read passes |
| OutputCap.AcceptedInWindowIff | internal/syncd/exec.go:490-523 | The reads of one window, the one that starts it among them: more than the rate passes if and only if one of them crosses the byte cap with more room left there than in the window, and then by no more than that room |
| OutputCap.WindowOverrunIff | internal/syncd/exec.go:490-523 | From any point of a window on: more passes than the window has left if and only if one of the reads crosses the byte cap with more room left there than in the window |
| OutputCap.ChargedInWindow | internal/syncd/exec.go:490-523 | What is charged without a new window starting is what the window shows |
| OutputCap.CrossingExceedsRate | internal/syncd/exec.go:473-489 | With a cap of 100 and a rate of 10 a read of 101 bytes is such a read and passes 100 |
| OutputCap.FirstCauseStays | internal/syncd/exec.go:473-523 | The cause of the first truncation is kept |
| OutputCap.OutputCap.Accept | internal/syncd/exec.go:473-523 | A read that the byte cap has no room for gets what room there is; any other gets all it wants if its window has that much left, else what the window has left; the branches equal the closed form |
| Gitignore.MergeIdempotentIffTidy | internal/syncd/gitignore.go:81-105 | For every text and every patterns without the end marker, merging twice equals merging once if and only if the text has no marker or its first begin comes before its first end |
| Gitignore.ManagedMergeIdempotentIffTidy | internal/syncd/gitignore.go:81-105 | The same for the markers and patterns Kari uses |
| Gitignore.LoneBeginIsNotIdempotent | internal/syncd/gitignore.go:81-105 | A file that is a begin marker alone is merged differently the second time |
| Gitignore.StrayBegin | internal/syncd/gitignore.go:81-105 | After a lone begin marker the second merge drops everything from that marker on |
| Gitignore.StrayEnd | internal/syncd/gitignore.go:81-105 | After an end marker without a begin before it every further merge adds a block |
| Gitignore.MergeKeepsUserText | internal/syncd/gitignore.go:81-136 | In a tidy text the merge leaves the text before and after the block as it was, and the result has a block |
| Gitignore.UserTextIsTheFile | internal/syncd/gitignore.go:81-136 | The user text is the whole file but for the span of the block and the newlines next to it and at the end |
| Gitignore.MergeRendersUserText | internal/syncd/gitignore.go:126-136 | The result is the user text, blank lines and the block, and nothing else |
| Gitignore.BlockMarkers | internal/syncd/gitignore.go:107-117 | The block shows its begin marker first and its end marker last, and no earlier end |
| GitignoreLines.MergedLines | internal/syncd/gitignore.go:81-136 | Line by line the merged file is the text before the block, a blank line, the begin marker, every pattern on a line of its own and in order, the end marker, a blank line and the text after |
| GitignoreLines.ManagedLinesAreThere | internal/syncd/gitignore.go:36-39 | Whatever the file was, both engine directories are on lines of their own in it afterwards |

## Left out

- Network, gRPC, HTTP handlers, processes, OS watchers, PTY, clipboard, desktop and web code.
- Goroutine scheduling below the critical sections; Session handles one message or event at a time, with choices left open where others may come in between.
- Reconciler: drift events, block hooks, the request channel, the tick loop and its error counters, removing a desired folder, and edits of the configuration by others in the middle of a tick. The desired state changes between ticks only; in the code a tick reads the list that UpdateDesiredFolder, RemoveDesiredFolder and MarkDesiredCleanup write to in place (internal/syncthing/reconciler.go:493-588, 613-617), so an edit can show in the middle of one, although the comment at internal/syncthing/reconciler.go:488-492 says that it takes effect on the next. Unknown folders are visited in any order, the code sorts them.
- SyncthingConfig.Client.Put: device puts are not modelled, the reconciler makes none.
- RestClient: keys are compared exactly, Go's decoder ignores case; device and options puts and the cap on the size of a reply are not modelled.
- Replication.ExchangeConverges: is about live files and tombstones, because a resume point the peer lacks is still pushed; also no ignored paths and no pending echo suppression in the exchange (Engine.SendFile models the suppression itself).
- Replication.NoResurrection: is about deletions strictly newer than the peer's copy; in a tie neither side acts.
- Rescan.ScansStayExact: speaks of the files that are on disk before and after each operation; a file that comes and goes within one is not seen.
- Engine: directories, internal paths, proposals, which paths the ignore rules exclude (a set of paths that may change at any time), cancelling in the middle of a file, saving index and tombstones to disk, the transfer rows, the scan and cleaning of the staging directory, and the local prune that follows receiving an ignore file (it sends nothing).
- Session.Session.Run: a file system error that ends the session, hooks, text operations, bootstrap, force-allow and session lists are other traffic that does not touch the file plane.
- LocalExec: a send to a channel after it was closed is not excluded; only that it is closed once and by whom.
- Sniffer.Sniffer.Feed: errors from forwarding and the grouping of bytes into writes are not modelled; what becomes of a paste (a path to upload or not, and the upload) is an arbitrary function of its number and body.
- Peers.TransmitStep: is about a wire that holds and a source that does not change while it is read; Receive.Transfer covers the rest.
- Peers.CompareStep: is about manifests without resume points, as the exchange is.
- RestTicks.RestTicksConvergeIff: takes puts of options to replace them.
- KittyFilter.FilterPrintsKeptTokens: covers commands that end with their terminator; KittyFilter.CutQueryIsDropped and KittyFilter.OtherCommandGoesOn say what an ESC inside one does.
- SyncTask: the service around the manager, and 64-bit overflow of the byte counters.
- Membership: no bound on the life of a lease under repeated stream errors, there is none; whether the close hook revokes is fixed to revoke-if-current, the documented use.
- IncomingHistory: loading and saving the index across restarts, and blobs changed by others.
- IncomingHistory.RetainedAreMostRecent: needs a strictly rising clock, because entries of equal age are evicted in any order.
- OutputCap: 64-bit overflow of the counters.
- Gitignore: reading and writing the file. Text is characters, not bytes.
- internal/remoteexec/ansi_boundary.go, policy matching, URL redaction, glob matching, folder names and token encoding: easy or not used here.
