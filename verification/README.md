# EdgeReplica page sync: a verified model

EdgeReplica replicates SQLite databases page by page.  A client compares page hashes with the
server over one WebSocket; a push sends the server the pages it lacks, a pull brings the client
the pages it lacks.  This project models that protocol from both ends and proves what a reader
of the code relies on: when the client receives `SyncComplete`, the replicas agree, whatever the
interleaving, the drain timing, the point of failure or the other sessions on the same database.
Four smaller parts of the worker follow: whole-range hash claims, the bearer tokens, the form
codec of the OAuth callback, and the in-memory repository.

`dafny verify dfyconfig.toml` checks everything.

## How the parts fit

| file | content |
|---|---|
| `Protocol`, `Domain`, `PageStore` | messages, digests, the page table and its range queries |
| `SyncSpec`, `SyncFsm` | the server's state machine as functions on values, and as the mutable object that refines them |
| `Session`, `Replies`, `Faults`, `Endings` | one session with any client: invariants of every run, the answer to every frame read off the frames before it, what a failure changes, and what can follow SyncComplete |
| `SyncServer` | the event loop of a session, and how it leaves the connection |
| `SyncClient`, `ClientLaws`, `ClientLoops` | the client's push and pull as step machines, what they say and do read off the frames received, and the loops that refine them |
| `Link`, `PushSystem`, `PushProof`, `Push` | client, queues and server of a push composed; its invariant; what a push guarantees |
| `PushShared` | the same push with any number of other sessions on the store |
| `PullSystem`, `PullProof`, `PullSteps`, `Pull` | a pull, with any number of other sessions on the store |
| `Projections` | how a whole system corresponds to its two peers: the client's machine and the server's session |
| `EndToEnd` | pushes and pulls one after the other |
| `Batch`, `Claims` | whole-range digests, and the partition of a pull for any client's claims |
| `Decimal`, `Tokens` | numbers in decimal, and the tokens |
| `Utf8`, `FormCodec`, `FormLaws` | text, the form codec, and what both do byte by byte |
| `Repo`, `RepoHistory`, `RepoMem` | the repository's operations, where its rows come from and go, and the mutable object |

The server's handlers and the loops of both peers are imperative, as in the source: classes
whose methods update fields, write to a shared page table and call a sink that may fail at any
call.  Each is proved equal to a function of the old state, and everything else is proved about
those functions.  What a function computes is said a second time without it: by the frames that
came before (`Replies`, `ClientLaws`), by literal bytes (`FormLaws`, `Decimal`, `Tokens.Verdict`), or
by the tables before and after (`RepoMem`, `RepoHistory`).  A failure is a credit running out: `Limited(n)` lets `n` more storage calls or
sends succeed, so a statement for all credits covers a failure at every call.

`page_hash` is an arbitrary function to 32-byte strings.  Results are stated on equal hashes;
where they are strengthened to equal bytes, the lemma says which pages the hash has to tell
apart, never that it is injective on all inputs.  The same holds for the MAC of the tokens.

## What the code does that its documentation does not say

- protocol/README.md:104-106 describes a reconciliation of unclaimed pages at the end of a push.
  The code performs none (worker/src/services/sync_fsm.rs:242 asks for a pull), and neither
  direction deletes pages: the exact result of a sync is the old map overlaid with the peer's pages.
  After a completed push nothing is left to pull exactly when the server numbered no page that the
  client does not (`EndToEnd.NothingLeftToPull`); for every stored page beyond the client's last
  there is a push that leaves it unreconciled (`EndToEnd.UnreconciledPush`).
- A range claim is only safe from a client that holds all pages of the range, or none: the
  server's digest skips absent pages and carries no page numbers.  `Batch.SafeExactly` is the exact
  condition, `Claims.UnsafeRangeLoses` a pull that loses a page.
- SyncComplete can be followed by an Error frame.  `Endings.LateExactly` is the exact condition, on
  the state and the batch: the hash phase is over, storage will take the first entries of the batch
  but not all, every awaited page is among those, and the socket takes one more frame.
  `Endings.LateOnlyInBatches` says that no other frame can cause it, `Endings.LateFailureHappens`
  is a run.
- A signed token without any caveat is rejected, and one appended `exp` makes it valid.  No token
  the code mints is like that; `Tokens.RevivesExactly` is the exact condition.
- Bad escapes do not always fall through unchanged (worker/src/routes.rs:98-100): the hex reader
  accepts a sign, so `%+5` is one byte (`FormCodec.SignedEscape`).  They do exactly when the input
  has no percent sign followed by a plus sign and a hex digit (`FormCodec.StrictExactly`).

## Model

| member | source | states |
|---|---|---|
| PageStore.Scan | worker/src/services/sync_storage.rs:260-300 | the ordered range query yields exactly the stored page numbers of the range, strictly ascending |
| PageStore.ScanIsUnique | worker/src/services/sync_storage.rs:260-300 | any ordered query result is that scan, so nothing depends on how the rows are produced |
| PageStore.NextRow | worker/src/services/sync_storage.rs:260-300 | no stored page lies before the next row of a scan, and its hash is the next block digested |
| PageStore.DigestsTheRows | worker/src/services/sync_storage.rs:260-275 | the digest of a range is the hash of the stored hashes of its rows, one after the other |
| PageStore.DigestsInOrder | worker/src/services/sync_storage.rs:260-275 | with 32-byte hashes, block i of what is digested is the hash of row i, and there are no other blocks |
| PageStore.CombinedHashPerPage | worker/src/services/sync_storage.rs:30-38 | the default loop digests the stored hashes of the range in page order, unless the lookup of some number of the range fails |
| PageStore.CombinedHashScan | worker/src/services/sync_storage.rs:260-275 | the single scan computes the same digest, for every map and every range, empty and reversed ones included, unless a row of the range fails |
| PageStore.IterMeans | worker/src/services/sync_storage.rs:40-58 | for every callback and every set of failing lookups: the calls made are those with the number and the bytes of each stored page of the range, in page order, up to the call that stops or the first lookup that fails |
| PageStore.IterCollects | worker/src/services/sync_storage.rs:40-58 | a callback that collects its calls and refuses call n has seen exactly the first n stored pages of the range with their bytes, or all of them |
| PageStore.IterPagesPerPage | worker/src/services/sync_storage.rs:46-58 | the default loop makes these calls and stops where one aborts or a lookup of the range fails |
| PageStore.IterPagesScan | worker/src/services/sync_storage.rs:281-300 | the single scan makes the same callbacks and stops at the same point, for every callback and every failing row |
| SyncFsm.PageTable.GetPageHash | worker/src/services/sync_storage.rs:223-230 | a lookup that fails or returns what is stored, and changes no page |
| SyncFsm.PageTable.GetPage | worker/src/services/sync_storage.rs:232-239 | the same for the bytes |
| SyncFsm.PageTable.PutPage | worker/src/services/sync_storage.rs:241-255 | inserts or replaces one page, or fails and changes none |
| SyncFsm.PageTable.GetMaxPage | worker/src/services/sync_storage.rs:302-310 | the largest stored page number, 0 for an empty table |
| SyncFsm.PageTable.GetCombinedHash | worker/src/services/sync_storage.rs:260-275 | the digest of the range as the state machine uses it |
| SyncFsm.SyncFsm.constructor | worker/src/services/sync_fsm.rs:60-74 | a new session has seen nothing, awaits nothing and counts nothing |
| SyncFsm.SyncFsm.OnHello | worker/src/services/sync_fsm.rs:142-160 | whole new state, frames and error of the handshake, for every version, storage and sink |
| SyncFsm.SyncFsm.OnPageHash | worker/src/services/sync_fsm.rs:162-193 | whole new state, frames and error of one announced hash in either direction |
| SyncFsm.SyncFsm.OnPageHashBatch | worker/src/services/sync_fsm.rs:195-213 | whole new state, frames and error of one range claim |
| SyncFsm.SyncFsm.OnPageData | worker/src/services/sync_fsm.rs:215-231 | whole new state, stored page, frames and error of one received page |
| SyncFsm.SyncFsm.OnPageDataBatch | worker/src/services/sync_fsm.rs:104-109 | the loop stores the entries in order up to the first error, completing the session in between if it comes to that |
| SyncFsm.SyncFsm.OnComplete | worker/src/services/sync_fsm.rs:233-271 | whole new state, frames and error of the end of the hash phase |
| SyncFsm.SyncFsm.SendUnclaimed | worker/src/services/sync_fsm.rs:242-268 | the cursor loop sends the stored unclaimed pages in order, stopping at the first failed row or send |
| SyncFsm.WalkIsQuery | worker/src/services/sync_fsm.rs:242-268 | the walk is the range query up to the handshake's maximum, with the callback that sends the unclaimed pages |
| SyncFsm.SyncFsm.OnMaybeComplete | worker/src/services/sync_fsm.rs:276-288 | SyncComplete goes out once, when the hash phase is over and nothing is awaited; a failed send leaves it unsent |
| SyncFsm.SyncFsm.ApplyFrame | worker/src/services/sync_fsm.rs:81-122 | the dispatcher is the specification's step, for every message, state and failure |
| SyncFsm.SyncFsm.OnClientClosed | worker/src/services/sync_fsm.rs:128-132 | the effect of a closing peer on the fields; nothing is sent |
| Session.TraceGrammar | worker/src/services/sync_fsm.rs:81-122 | any client, any failure: the frames sent are empty or HelloReply, then requests or page data and batch mismatches, then at most one SyncComplete, last |
| Session.CompletionIsEarned | worker/src/services/sync_fsm.rs:215-288 | at SyncComplete every page ever requested has been stored since its request, and the totals count exactly the pages moved so far |
| Session.CompletionGate | worker/src/services/sync_fsm.rs:134-138 | between frames, done() holds exactly when the hash phase is over and nothing is awaited, and what is awaited is what the log shows requested and not yet stored |
| Session.ClosingIsIdle | worker/src/services/sync_fsm.rs:124-132 | a closing peer never changes the state of an error-free session |
| Session.RunIsSound | worker/src/do_sync_ws.rs:68-120 | the invariant of a session holds after every sequence of frames, of any client, with other sessions changing the store in between |
| Replies.RunRemembers | worker/src/services/sync_fsm.rs:81-122 | an open session has noted exactly the pages claimed so far, whether Complete has come, and the greatest page number at the handshake |
| Replies.FirstFrame | worker/src/services/sync_fsm.rs:142-160 | the first frame is answered by a HelloReply of version 1 with the greatest stored page number exactly when it is a Hello of version 1; anything else ends the session unanswered |
| Replies.OutOfPlace | worker/src/services/sync_fsm.rs:94-121 | a second Hello or a frame only a server may send ends the session unanswered |
| Replies.HashAnswer | worker/src/services/sync_fsm.rs:162-193 | in every run, an announced hash adds nothing if the store has it, otherwise a request in a push and the stored page, if any, in a pull |
| Replies.RangeAnswer | worker/src/services/sync_fsm.rs:195-213 | in every run, a range claim adds nothing if it is the hash of the stored hashes of the range's rows in order, and otherwise exactly the mismatch with the page numbers of the range |
| Replies.DataAnswer | worker/src/services/sync_fsm.rs:215-231 | in every run, a page that arrives is stored with the hash of its bytes, and SyncComplete follows exactly when Complete has come and this was the last page asked for |
| Replies.BatchAnswer | worker/src/services/sync_fsm.rs:104-109 | in every run, each page a batch names ends with the last bytes given for it, no other page changes, and SyncComplete goes out once, right after the entry that brings the last page asked for |
| Replies.PushCompletes | worker/src/services/sync_fsm.rs:233-288 | in every push, Complete is answered by SyncComplete exactly when every page asked for has arrived |
| Replies.PullCompletes | worker/src/services/sync_fsm.rs:233-288 | in every pull, Complete is answered by the stored unclaimed pages up to the handshake's maximum, in page order, and then SyncComplete with the true totals |
| Faults.ApplyCut | worker/src/services/sync_fsm.rs:81-122 | for every state, frame and credit: a failing call leaves the beginning of what the step would have done, with one credit spent per frame |
| Faults.FailureCutsShort | worker/src/do_sync_ws.rs:94-119 | the same of a session: its log is a prefix of the log without the failure, it ends for that reason only, and a socket that takes n more frames takes exactly the first n |
| Endings.LateExactly | worker/src/services/sync_fsm.rs:104-109 | a batch fails after SyncComplete exactly when the hash phase is over, storage takes some but not all entries, the awaited pages are among those, and the socket takes one more frame |
| Endings.LateOnlyInBatches | worker/src/services/sync_fsm.rs:104-109 | in any session with any client, a frame causes a failure after SyncComplete exactly when it is a PageDataBatch that meets that condition, and the failure is one of storage |
| Endings.LateFailureHappens | worker/src/do_sync_ws.rs:94-119 | such a session exists: SyncComplete is sent and the session fails |
| SyncServer.HandleFrame | worker/src/do_sync_ws.rs:91-119 | one frame: the session's next state and whether the loop ends; after a failure one Error that names it and close code 1011, after SyncComplete close code 1000 and nothing more, after a lost socket neither |
| SyncServer.HandleEnd | worker/src/do_sync_ws.rs:71-90 | a text frame is reported and closes with 1003, an undecodable one with 1002, a closing peer and a broken socket are not reported, and the session's state does not change |
| SyncServer.HandleEvents | worker/src/do_sync_ws.rs:68-130 | for every stream of events the loop leaves the state and the frames of the specification's run; by how the run ended, exactly one Error with its reason follows unless the socket takes no more, or none, and the close code is 1000, 1011, 1003, 1002 or none |
| SyncServer.Reasons | worker/src/services/sync_fsm.rs:81-160 | the text of the Error frame for each failure, without its details |
| SyncServer.LeadingMeans | worker/src/do_sync_ws.rs:68-90 | the frames delivered are those before the first event that is none, and that event ends the loop |
| SyncServer.LoopSendsTheSame | worker/src/do_sync_ws.rs:113-118 | what the loop reports is what a server step of the whole systems puts on the way to the client |
| ClientLaws.PushSpeaks | client/src/sync_ws.rs:58-110 | whatever a server sends: Hello, every page's number with the hash of its bytes in order, Complete, then the requested pages in the order of the requests read; what is queued is what was asked for and not yet served |
| ClientLaws.PushGivesUp | client/src/sync_ws.rs:58-110 | exactly when a step of a push gives up: no reply of version 1, a frame that is no request, or a request for a page the database does not have |
| ClientLaws.PullDelivers | client/src/sync_ws.rs:112-168 | whatever a server sends: at SyncComplete the file is its old pages with the last bytes received for each page, and the count is the number of pages received; before that the file is what it was |
| ClientLoops.Handshake | client/src/sync_ws.rs:221-243 | sends Hello, reads the next frame, and succeeds exactly when that is a HelloReply of the same version |
| ClientLoops.Socket.Recv | client/src/sync_ws.rs:251-274 | returns the next binary frame, skipping pings; anything else before it closes the session and no frame is lost or invented |
| ClientLoops.DrainReady | client/src/sync_ws.rs:280-309 | reads everything that has arrived, up to the first pause and no further: requests join the queue in order, any other message ends the push |
| ClientLoops.PageReader.NextHash | client/src/pages.rs:50-58 | hashes pages 1..=max in order, each once, then stops; a page that cannot be read is reported and not skipped |
| ClientLoops.PageReader.ReadPage | client/src/pages.rs:60-69 | returns the page, and fails exactly when the query fails or there is no page of that number |
| ClientLoops.OpenReader | client/src/pages.rs:22-42 | the cursor starts at page 1, or the file cannot be opened |
| ClientLoops.OpenWriter | client/src/pages.rs:77-89 | the transaction starts empty and no page changes, or the file cannot be opened |
| ClientLoops.PageWriter.Write | client/src/pages.rs:91-98 | a write goes into the transaction and leaves the file's pages alone; it fails only when the file takes no more |
| ClientLoops.PageWriter.Commit | client/src/pages.rs:100-106 | the file changes by the whole transaction or not at all |
| ClientLoops.PageWriter.Drop | client/src/pages.rs:109-115 | an uncommitted transaction leaves nothing |
| ClientLoops.PushHashes | client/src/sync_ws.rs:71-76 | the hash loop announces every page and drains once after each, as a run of the push machine |
| ClientLoops.PushDrain | client/src/sync_ws.rs:79-109 | the drain loop serves queued requests before it waits, as a run of the push machine |
| ClientLoops.Push | client/src/sync_ws.rs:58-110 | push completes with the totals of the SyncComplete it read, as a run of the push machine; it gives up only where that run has aborted, cannot send or read what it has to, or waits for what will not come |
| ClientLoops.WriteBatch | client/src/sync_ws.rs:145-152 | the entries of a batch are written in order, or the loop reports the first write that failed |
| ClientLoops.PullDrain | client/src/sync_ws.rs:122-167 | pages are staged as they arrive; only SyncComplete commits them |
| ClientLoops.Pull | client/src/sync_ws.rs:112-168 | pull completes as a run of the pull machine with its committed pages; it gives up only where that run cannot go on or the file cannot be opened, read or written, and then no page has changed |
| Push.Converges | worker/src/services/sync_fsm.rs:162-288 | every run that ends in SyncComplete leaves exactly the initial store overlaid with the client's differing pages, and reports their number and size |
| Push.AnyPrefixIsSafe | client/src/sync_ws.rs:58-110 | at every moment of every run, failed or not, only differing pages have been replaced, by the client's, and the counter says how many |
| Push.Conservation | worker/src/services/sync_fsm.rs:179-231 | the awaited pages are, each exactly once, requests in flight, queued requests and data in flight, and all were announced |
| Push.Terminates | client/src/sync_ws.rs:72-109 | a fault-free push of n pages takes at most 5n + 6 steps, nobody aborts or fails, and where no step is possible SyncComplete has arrived |
| Push.NeverStuck | client/src/sync_ws.rs:72-109 | until the client has its SyncComplete some peer can move |
| Push.Completes | client/src/sync_ws.rs:58-110 | every push can complete, from every store and every local database |
| Push.Resumes | client/src/sync_ws.rs:58-110 | after a push cut off anywhere, a second one reaches the store of an uninterrupted push, and together they move each differing page once |
| Push.RepeatIsIdle | worker/src/services/sync_fsm.rs:162-193 | repeating a completed push reports 0 pages and 0 bytes and changes nothing |
| Push.StillDiffering | worker/src/services/sync_fsm.rs:162-193 | after some differing pages are written exactly the others still differ |
| Push.OverlayHoldsTheBytes | protocol/src/sync.rs:25-30 | when the hash tells the two versions of a page apart, the server ends with the client's bytes and their digest |
| Push.BytesFit | worker/src/services/sync_fsm.rs:227-228 | with SQLite's page sizes the 64-bit byte total of a push cannot wrap |
| PushShared.EveryPageArrives | worker/src/services/sync_fsm.rs:162-288 | with any concurrent sessions, at SyncComplete the store has held each of the client's pages, by its hash, at some moment of the push, and still has a page of that number |
| PushShared.Conservation | worker/src/services/sync_fsm.rs:179-231 | in-flight conservation with any concurrent sessions |
| PushShared.Terminates | client/src/sync_ws.rs:72-109 | with any concurrent sessions a fault-free push takes at most 5n + 6 steps of its own, nobody aborts or fails, and where it cannot move SyncComplete has arrived |
| PushShared.Converges | worker/src/services/sync_fsm.rs:162-288 | while other sessions store only the client's own pages, a completed push leaves the same page numbers and hashes as it would alone |
| PushShared.CutOffIsFriendly | client/src/sync_ws.rs:58-110 | what a push that was cut off left on its way to the server is such traffic |
| Projections.ApplyUnder | worker/src/services/sync_fsm.rs:81-122 | what a session has done before does not change its next step, it only precedes it |
| Projections.NextArrival | worker/src/do_sync_ws.rs:68-120 | a server step of the whole system is the next step of a session, with the same frames and the same end |
| Projections.PushClientStep | client/src/sync_ws.rs:58-110 | the client's next step is possible in the system exactly when its machine can take it on the frames sent so far, and both stay in step |
| Projections.PushServerStep | worker/src/do_sync_ws.rs:68-120 | a server step keeps system, machine and session in step |
| Projections.PushIsTwoPeers | client/src/sync_ws.rs:58-110 | every run of a whole push is a run of the client's machine and a session, each on exactly the frames the other has sent |
| Projections.PullClientStep | client/src/sync_ws.rs:112-168 | the same of a step of a pull's client |
| Projections.PullServerStep | worker/src/do_sync_ws.rs:68-120 | the same of a step of its server |
| Projections.PullIsTwoPeers | client/src/sync_ws.rs:112-168 | the same of every run of a whole pull, among any number of other sessions |
| PullProof.ApplyGrows | worker/src/services/sync_fsm.rs:81-122 | no frame of any client removes a page, and new bytes come with their own digest |
| PullProof.WalkEffect | worker/src/services/sync_fsm.rs:242-268 | the walk sends exactly the unclaimed stored pages in order and counts them; cut short, it has sent no SyncComplete |
| Pull.Fresh | worker/src/services/sync_fsm.rs:162-271 | with any concurrent sessions, a completed pull holds a copy of every page present at its handshake, in a version the server held between Hello and SyncComplete |
| Pull.FreshBytes | worker/src/services/sync_fsm.rs:162-271 | byte for byte, for every page stored when the run began, when the hash tells the versions apart |
| Pull.NothingInvented | client/src/sync_ws.rs:136-163 | a completed pull keeps every local page number and holds only local pages and pages the server held meanwhile |
| Pull.Atomic | client/src/pages.rs:71-115 | whatever frames arrive, from any server, and wherever a write fails: without SyncComplete the file is what it was |
| Pull.AtomicAmongSessions | client/src/pages.rs:71-115 | the same for every run of the whole system |
| Pull.Exact | worker/src/services/sync_fsm.rs:162-271 | on a store nobody else touches, the committed pages are exactly the old ones overlaid with those the client lacked or had differently, each sent once in page order, and the totals are their number and size |
| Pull.TotalsAreTrue | worker/src/services/sync_fsm.rs:184-187 | with 32-bit page numbers and SQLite's page sizes the totals of a pull cannot wrap |
| Pull.Terminates | client/src/sync_ws.rs:122-167 | a fault-free pull takes at most 3n + m + 6 steps of its own whatever other sessions do, nobody aborts or fails, and where it cannot move SyncComplete has arrived |
| Pull.NeverStuck | client/src/sync_ws.rs:122-167 | until the client has its SyncComplete one of its own steps is possible |
| Pull.Completes | client/src/sync_ws.rs:112-168 | every pull can complete, from every store and every local database |
| Pull.WalkedIsWalk | worker/src/services/sync_fsm.rs:242-268 | the walk is strictly ascending and contains exactly the stored unclaimed pages of the range |
| EndToEnd.ReplicasAgree | client/src/sync_ws.rs:58-168 | pushing A and pulling into B gives B all of A, and exactly A when neither the server nor B had other pages |
| EndToEnd.FirstReplica | client/src/sync_ws.rs:58-168 | pushing A into an empty replica and pulling into an empty file gives exactly A, for every hash function |
| EndToEnd.PullAfterPush | worker/src/services/sync_fsm.rs:162-271 | right after a push, a pull has to send exactly the pages the client does not number |
| EndToEnd.NothingLeftToPull | protocol/README.md:104-106 | after a completed push nothing is left to pull exactly when the server numbered no page the client does not |
| EndToEnd.UnreconciledPush | protocol/README.md:104-106 | for every stored page beyond the client's last there is a push that completes without reconciling it |
| EndToEnd.PulledAgrees | worker/src/services/sync_fsm.rs:162-271 | after a pull nothing is left to pull, and exactly the pages the store lacks are left to push |
| EndToEnd.RepeatIsIdle | client/src/sync_ws.rs:112-168 | repeating a completed pull reports 0 pages and 0 bytes and changes neither side |
| Batch.MatchIsExact | worker/src/services/sync_fsm.rs:195-213 | for a client that holds the whole range the digests match exactly when the server holds every page of it with an equal hash |
| Batch.SafeExactly | protocol/src/sync.rs:58-65 | a range may be claimed by its digest exactly when the client holds all of its pages or none |
| Batch.Misleads | worker/src/services/sync_storage.rs:30-38 | for every other range there is a store with the same digest that hides a page from the client |
| Claims.Partition | worker/src/services/sync_fsm.rs:162-268 | for any distinct single claims and any range claims, each stored page is sent inline, sent in the walk, or claimed and uncontradicted; none is sent twice and the walk ascends |
| Claims.RefusalsAreTold | worker/src/services/sync_fsm.rs:195-213 | the mismatch frames of a whole session are those of exactly the range claims whose digest is not that of the stored rows |
| Claims.RangeIsTested | worker/src/services/sync_fsm.rs:195-213 | after any other claims, a client that holds the range it claims gets the mismatch frame exactly when the server lacks one of its pages or has another version of it |
| Claims.BatchedPull | worker/src/services/sync_fsm.rs:195-213 | if every page of the mismatch frames the client receives is also claimed one by one, a pull with range claims sends exactly what a pull has to send and ends in the same database |
| Claims.UnsafeRangeLoses | worker/src/services/sync_fsm.rs:202-209 | a range claimed without holding all of it can make a pull leave out a page it has to send |
| Decimal.PrintReads | worker/src/auth/tokens.rs:84-96 | parsing undoes decimal printing for every i64 |
| Decimal.SpelledReads | worker/src/auth/tokens.rs:93-96 | an optional sign, any zeros and the decimal digits of a number are read as that number, if it is an i64 |
| Decimal.ReadIsSpelled | worker/src/auth/tokens.rs:93-96 | nothing else is read |
| Decimal.PlaceValue | worker/src/auth/tokens.rs:93-96 | a digit is worth itself times ten for every digit after it |
| Tokens.Verdict | worker/src/auth/tokens.rs:101-123 | the answer to every token there can be, in terms of the MACs from the root key on: which error, or the decoded claims with the earliest expiry |
| Tokens.ExpIs | worker/src/auth/tokens.rs:91-96 | a caveat is an expiry exactly when it is the four bytes `exp=` and an i64 |
| Tokens.Unforgeable | worker/src/auth/tokens.rs:101-105 | an accepted token is the one made from its identifier and caveats with the root key; any other signature is rejected, for sessions and syncs alike |
| Tokens.MintsExactly | worker/src/auth/tokens.rs:84-89 | identifier, caveat and signature of a minted token, in the claims' own words |
| Tokens.SessionExactly | worker/src/auth/tokens.rs:170-189 | of all tokens, those accepted for a session are the untouched ones in force with a session's claims, a known role and no empty field |
| Tokens.SyncExactly | worker/src/auth/tokens.rs:214-233 | the same for syncs |
| Tokens.SessionRefusal | worker/src/auth/tokens.rs:125-189 | the error for every other token, in the order of the checks |
| Tokens.SyncRefusal | worker/src/auth/tokens.rs:125-233 | the same for syncs |
| Tokens.Attenuates | worker/src/auth/tokens.rs:101-123 | a minted token with any appended caveats is rejected or yields exactly the minted claims with the earliest of all expiry times |
| Tokens.OrderIsIrrelevant | worker/src/auth/tokens.rs:101-123 | the order and repetition of appended caveats do not matter |
| Tokens.RevivesExactly | worker/src/auth/tokens.rs:101-123 | appending turns a rejected token into an accepted one exactly when it is signed, has no caveat at all, and the caveat is its first expiry |
| Tokens.BareRevives | worker/src/auth/tokens.rs:115-116 | such a token, rejected for its missing expiry, and its revival |
| Tokens.MintedNeverRevives | worker/src/auth/tokens.rs:101-123 | a rejected token that comes from a minted one stays rejected, now and later |
| Tokens.OnlyNarrows | worker/src/auth/tokens.rs:101-123 | an appended caveat never changes the claims of an accepted token and never prolongs it |
| Tokens.SessionRoundTrip | worker/src/auth/tokens.rs:155-189 | a minted session token, however attenuated, is accepted exactly while its earliest expiry is ahead, every caveat is an expiry and no field is empty, and then returns the minted fields |
| Tokens.SyncRoundTrip | worker/src/auth/tokens.rs:201-233 | the same for sync tokens |
| Tokens.PurposesAreApart | worker/src/auth/tokens.rs:125-133 | neither kind of token passes for the other, whatever is appended |
| FormCodec.UrlEncode | worker/src/services/oauth.rs:209-221 | the encoder's loop computes the encoding of all its bytes in order |
| FormCodec.UrlDecode | worker/src/routes.rs:101-130 | the index loop reads plus signs, escapes and plain bytes left to right, and makes text of the bytes at the end |
| FormCodec.RoundTrip | worker/src/services/oauth.rs:209-221 | decoding undoes encoding for every byte string |
| FormCodec.TextRoundTrip | worker/src/routes.rs:101-130 | decoding undoes encoding for every UTF-8 string, the final conversion to text included |
| FormLaws.WritesFront | worker/src/services/oauth.rs:209-221 | every byte's encoding: letters, digits and four marks as they are, a plus sign for a space, a percent sign and two upper-case digits for the rest |
| FormLaws.ReadsFront | worker/src/routes.rs:101-128 | what is read at every position, with hex digits in either case, and what is left unchanged |
| Utf8.EncodedIsText | worker/src/routes.rs:129 | the bytes of any characters are text |
| Utf8.TextIsEncoded | worker/src/routes.rs:129 | all text is the bytes of some characters |
| Utf8.LossyFront | worker/src/routes.rs:129 | for every string, a character at the front is kept, and otherwise the longest part that could have begun one, or one byte, becomes U+FFFD |
| Utf8.LossyMeans | worker/src/routes.rs:129 | the conversion always yields text, and leaves its input as it is exactly when that is text |
| FormCodec.EncodedIsSafe | worker/src/services/oauth.rs:209-221 | encoded strings hold unreserved bytes, plus signs and percent escapes only |
| FormCodec.PlainIsUnchanged | worker/src/routes.rs:104-129 | text without plus and percent signs decodes to itself |
| FormCodec.StrictExactly | worker/src/routes.rs:98-130 | bad escapes fall through unchanged exactly when the input has no percent sign followed by a plus sign and a hex digit |
| FormCodec.SignedEscape | worker/src/routes.rs:114-119 | the input `%+5`, which decodes to one byte where a strict decoder leaves three |
| FormCodec.ParseCallback | worker/src/routes.rs:34-48 | the loop assigns the fields of the non-empty pairs in order |
| FormCodec.FormRoundTrip | worker/src/routes.rs:34-48 | any form of encoded text values, in any order, is read back as its last state, last code and last error |
| FormLaws.SplitExactly | worker/src/routes.rs:39 | the pairs of a query are what lies between its ampersands |
| FormLaws.KeyValueExactly | worker/src/routes.rs:40 | the first equals sign ends the key; without one everything is the key |
| FormLaws.CallbackExactly | worker/src/routes.rs:34-59 | for every form the page shows the last error or description if there is one, and otherwise the last state and code if there are both |
| FormLaws.CallbackRoundTrip | worker/src/routes.rs:34-59 | the query `state=...&code=...` with both values encoded shows exactly the two strings |
| Repo.AlwaysConsistent | worker/src/repo_mem.rs:116-432 | after any operations with fresh identifiers every organization has an admin, every database an organization, names are unique per organization and addresses up to case |
| Repo.ApplyKeeps | worker/src/repo_mem.rs:116-432 | each operation keeps that |
| Repo.SomebodyIsAdmin | worker/src/repo_mem.rs:292-314 | after any operations every organization has a user whose row makes them its admin |
| Repo.LastAdminExactly | worker/src/repo_mem.rs:292-314 | removing a membership is refused exactly when it is the organization's only admin |
| RepoHistory.EveryRowHasAnOrigin | worker/src/repo_mem.rs:67-403 | after any operations, every row of every table was put there by one operation that asked for exactly this row and went through, and has stayed since |
| RepoHistory.AdminsAreMade | worker/src/repo_mem.rs:116-290 | somebody is an admin only by signing up, by creating the organization, or by being added with that role |
| RepoHistory.RowStays | worker/src/repo_mem.rs:67-403 | a row stays as it is while no operation takes or replaces it |
| RepoHistory.AskedIsThere | worker/src/repo_mem.rs:67-403 | an operation that goes through leaves every row it asks for |
| RepoHistory.SecretIsThere | worker/src/repo_mem.rs:102-114 | a changed secret is in its row, and the rest of the row is as it was |
| RepoHistory.TakenIsGone | worker/src/repo_mem.rs:67-403 | and none of those it takes |
| RepoHistory.RefusedIsIdle | worker/src/repo_mem.rs:67-403 | an operation that does not go through changes nothing |
| Repo.AllLasts | worker/src/repo_mem.rs:233-253 | users and personal organizations are never lost or changed |
| Repo.SignUpOnce | worker/src/repo_mem.rs:116-148 | an address that was used once, in any spelling and in either way of signing up, can never sign up again, and its personal organization still has an admin |
| Repo.SingleUse | worker/src/repo_mem.rs:390-403 | an OAuth state yields nothing after it was consumed, expired or not, until it is stored again |
| RepoMem.InMemoryRepo.GetUserByEmail | worker/src/repo_mem.rs:406-409 | finds a user exactly when the address is taken, and the only one there is while addresses are unique |
| RepoMem.InMemoryRepo.CreatePasswordUser | worker/src/repo_mem.rs:116-148 | all tables and the result of a sign-up, or a refusal that changes nothing |
| RepoMem.InMemoryRepo.CreateOAuthUser | worker/src/repo_mem.rs:150-183 | the same for a sign-up through a provider |
| RepoMem.InMemoryRepo.LinkIdentity | worker/src/repo_mem.rs:67-100 | a known identity is returned to its owner and refused to anybody else; an unknown one is added |
| RepoMem.InMemoryRepo.UpdateIdentitySecret | worker/src/repo_mem.rs:102-114 | changes one secret and nothing else |
| RepoMem.InMemoryRepo.CreateOrganization | worker/src/repo_mem.rs:190-219 | an organization and its admin, or a refusal for an unknown owner |
| RepoMem.InMemoryRepo.DeleteOrganization | worker/src/repo_mem.rs:233-253 | refused for personal organizations and for those with databases; otherwise it goes with its memberships only |
| RepoMem.InMemoryRepo.AddOrgMembership | worker/src/repo_mem.rs:266-290 | adds one row with this user, organization, role and time, or refuses a duplicate; no other row changes |
| RepoMem.InMemoryRepo.CountAdmins | worker/src/repo_mem.rs:300-305 | counts the organization's admin rows |
| RepoMem.InMemoryRepo.RemoveOrgMembership | worker/src/repo_mem.rs:292-314 | removes one row, unless it is missing or the last admin's |
| RepoMem.InMemoryRepo.CreateDatabase | worker/src/repo_mem.rs:328-357 | adds a database to an existing organization under a name free in it |
| RepoMem.InMemoryRepo.DeleteDatabase | worker/src/repo_mem.rs:376-382 | removes one database or reports it missing |
| RepoMem.InMemoryRepo.StoreOAuthState | worker/src/repo_mem.rs:384-388 | stores the state under its own name |
| RepoMem.InMemoryRepo.ConsumeOAuthState | worker/src/repo_mem.rs:390-403 | removes the state even when it has expired, and returns it only if it has not |

## Left out

- BLAKE3, HMAC, MessagePack and protobuf internals: parameters.  A frame that cannot be decoded is an event of its own in both loops; the version byte of a frame is part of that.
- The WebSocket, TLS and the Workers runtime: two ordered queues in the system models, scripted events in the loops.  A client killed in the middle of a run is a run that ends there.
- Page numbers are naturals; the source's are 32-bit.  `start..=end` of a range claim is not limited in size.
- SQLite: the local database does not change during a session.  In the loops every call into it may fail; why `sqlite_dbpage` refuses a page is not modelled.  In the whole-system models a client that cannot read its file is a client that takes no more steps.
- The `updated_at_ms` column and the clock: written by the server, read by nobody in the protocol.
- Two runs of the loops joined by real queues: the whole-system models take their steps one at a time, and `Projections` relates each to the machine the loop refines.
- A socket that reports a send as failed after delivering it.
- In the whole-system models the Error of a failed session always arrives; the loop's may be lost with the socket, and then that client has read a beginning of what the models let it read.
- SyncServer.HandleEvents: the texts of the Error frames are shortened; versions and storage messages are not part of them.
- Tokens.Attenuates: when a token is both wrongly signed and carries a foreign caveat, which of the two errors the macaroon library reports is not modelled; a token that does not deserialize is rejected before this model starts.
- Tokens.RevivesExactly: third-party caveats are rejected, as the verifier satisfies none; discharges are not modelled.
- RepoMem.InMemoryRepo.LinkIdentity: which of several identical identities is found is left open, as it is in the hash map; that identities are unique is not claimed, because `create_oauth_user` does not ensure it.
- The read-only listings of the repository, the D1 repository, migrations, admin endpoints, RPC handlers, CLI, configuration, HTML and the OAuth network calls: one check each, or presentation.
