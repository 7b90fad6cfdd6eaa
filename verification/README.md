# Delivery core, modelled and proved

A Dafny model of the delivery core of Arachne: what a publisher remembers, what a
reader can recover from it, how arriving objects are staged and handed over, how
latest values are indexed and signed, and the two small machines around it (the
consumer queue and the interest announcer). `dafny verify dfyconfig.toml` checks
the whole project.

How it is laid out, bottom up:

| file | what it models |
|---|---|
| Bytes, Ordering | machine words, big-endian numbers, cursor reads, ordered maps and sets, stable sorting |
| Publication | publication contexts and the three byte forms they are authenticated under |
| Retention, Selection, Snapshot, PublisherLog | the publisher's bounded index, measured against everything it ever appended; range selection; the saved form; the class that is updated in place |
| Wire, Paging, Receive, NoLoss | signed range replies, catching up page by page, the receive journal, and the two ends composed |
| Direct, Streams | per-audience direct streams: gaps, skipping, byte budget, numbering |
| Inbox, Delivery, Unordered | replay evidence, pending objects, the order of handing over, and a run that loses it |
| Current, Manifest, IndexSnapshot, Reader | the index of latest values, its signed views, its saved form, and a reader of views |
| Queue, Interest | the three-class consumer queue and the announcer of local interests |

The pattern is the same throughout. A state is a datatype, an operation is a
function on it, and the promises are lemmas about that function: invariants of
every step, then statements over whole runs. Where the source updates an object
or a buffer step by step, a class or a method with a loop does the same and is
proved equal to the function. A lemma whose name ends in `Exactly` says when an
operation succeeds, both ways, and what it leaves, in terms of the state's own
fields.

Inputs from outside. Decryption, signing, hashing, the roster, the routing policy,
the JSON size of the inbox, the clock, and the node's answers are functions or
parameters. Hashing is taken as collision-free only for the digests of packets,
receive records and topic selections; elsewhere any hash will do. "Unforged" means that
an offer which opens under an author's key was signed by that author before.

Five properties a reader might expect are false of the code. Each is shown with an
input that breaks it, next to the exact condition under which it holds:

- Catching up over the wire can stall although every page can be selected: a page
  of 32 numbers may not fit one reply (`Paging.StallExample`; exact condition in
  `Paging.ReachesHeadExactly`, and a bound on publications that rules it out in
  `Paging.SmallPagesFit`). This concerns available ranges; a host may still ask
  for a shorter explicit one.
- An arrival at or below a direct stream's floor can lower that floor
  (`Streams.LateArrivalExample`; exact condition in `Streams.PlacedKeepsFloor`).
- Direct objects can be handed over out of order (`Unordered.LateArrivalUnorders`;
  exact condition over every run in `Delivery.OrderExactly`).
- At the largest sequence number a complete direct stream still reports a gap or
  an error, and skipping never settles it (`Streams.LargestNumberReportsFalseGap`,
  `Streams.LargestNumberFails`; exact conditions in `Direct.NoGapExactly` and `Direct.SettlesExactly`).
- A refusal by the node drops an announcement that nothing else will make
  (`Interest.RefusalExample`, `Interest.RepairRefusalExample`; exact conditions in
  `Interest.RefusalLoses`, over whole runs in `Interest.KeptThroughout`).

The bound of eighteen pops in `Scheduler.BulkIsServed` and
`Scheduler.CurrentIsServed` is exact: `Scheduler.BulkWaitsExample` and
`Scheduler.CurrentWaitsExample` wait for seventeen.

## Model

| member | source | states |
|---|---|---|
| NoLoss.NothingIsLost | crates/arachne-delivery/src/receive.rs:126-180 | over any interleaving of publishing, eviction, restart, serving, live traffic and recovery, progress n for an author and topics means every publication of that author on those topics up to number n has its exact evidence in the journal |
| NoLoss.StepSound | crates/arachne-delivery/src/receive.rs:126-180 | every single event keeps publisher indexes true to their pasts, signatures true to the windows they were made for, and journal progress covered by evidence |
| NoLoss.OfferedIsWindow | crates/arachne-delivery/src/wire.rs:697-782 | any reply that verifies as an offer carries exactly the author's window of its whole past, though the author may since have evicted or restarted |
| Retention.AppendReached | crates/arachne-delivery/src/lib.rs:173-226 | an accepted append extends the full history by exactly its record, keeps that record held, restores every bound, moves the head by one and only raises watermarks |
| Retention.AppendExactly | crates/arachne-delivery/src/lib.rs:173-226 | an append is accepted if and only if the publication is of this workspace and of an admissible size, its topic is known or there is room for one more, nothing still held has its id, numbers are left, and the number it claims, if any, is the next one |
| Retention.ShrinkFaithful | crates/arachne-delivery/src/lib.rs:195-246 | the eviction loop ends within the byte budget, its assertion cannot fail, it never evicts the record just added, and what is held stays a true account of the past |
| Retention.ShrinkOldestFirst | crates/arachne-delivery/src/lib.rs:227-246 | every record given up is older than every record kept, and the last one given up would not have fitted the budget |
| Retention.EvictAccounted | crates/arachne-delivery/src/lib.rs:241-246 | the byte counter stays equal to the sum of the held weights, so it never underflows |
| Retention.EmptyReached | crates/arachne-delivery/src/lib.rs:116-125 | a new index is a true account of an empty past |
| Selection.SelectExactly | crates/arachne-delivery/src/lib.rs:294-333 | a selection succeeds if and only if it is well formed, no selected topic lost anything above its start, and the window has at most 32 records; then it is exactly the publications of the full history in that window, in order |
| Selection.SelectRefusal | crates/arachne-delivery/src/lib.rs:294-333 | a refusal names a reason that applies: invalid if and only if the request is ill formed, unavailable only if something selected was lost above its start, too large only for more than 32 records |
| Selection.RaisedSelect | crates/arachne-delivery/src/lib.rs:294-333 | forgetting more never changes an answer, it only withholds some |
| Selection.FloorIsLeastIntact | crates/arachne-delivery/src/wire.rs:475-482 | the cutoff floor is the least cursor from which nothing selected was lost, both ways |
| Selection.PageAvailable | crates/arachne-delivery/src/wire.rs:677-690 | from the floor upwards the next page is never refused and is the window of the full history |
| Selection.CatchUp | crates/arachne-delivery/src/wire.rs:657-693 | paging from any cursor at or above the floor ends at the head and returns each selected publication exactly once, in order |
| Paging.ReachesHeadExactly | crates/arachne-delivery/src/wire.rs:657-693 | asking for the next available range again and again reaches the head, with each selected publication exactly once and in order, if and only if every page on the way fits its reply envelope |
| Paging.PageArrives | crates/arachne-delivery/src/wire.rs:657-693 | one such request brings exactly the next window of the full history, verified, if and only if that page fits |
| Paging.PageRefused | crates/arachne-delivery/src/wire.rs:348-360 | a page that does not fit brings nothing, whatever is signed |
| Paging.FetchedIsAdmitted | crates/arachne-delivery/src/wire.rs:657-693 | an available range is served only to a requester the policy admits and only for this very index; anyone else gets the empty answer |
| Paging.SignersExist | crates/arachne-security/src/recovery.rs:301-329 | for every history there are signatures and a collision-free hash that meet what these lemmas ask of the offers |
| Paging.SmallPagesFit | crates/arachne-delivery/src/wire.rs:348-360 | publications of at most 3600 bytes always fit, so paging by available ranges never stalls on them |
| Paging.StallExample | crates/arachne-delivery/src/wire.rs:634-636 | eight publications of the largest size, appended in order and within every bound, can be selected but are never offered as an available range |
| Paging.FilledReached | crates/arachne-delivery/src/lib.rs:173-226 | that index is one a run of appends really reaches |
| Snapshot.RoundTrip | crates/arachne-delivery/src/lib.rs:337-479 | restoring the snapshot of any reachable index gives that index: legacy and sequenced records, fully evicted topics included |
| Snapshot.RestoresExactly | crates/arachne-delivery/src/lib.rs:371-479 | any bytes are restored to an index if and only if it is of this workspace, author and epoch, passes every check (rising numbers above each watermark up to the head, no number or id borne twice, no unobserved topic, every bound, a byte counter that is the held weight, a head some topic bears) and the bytes are its own in one of the two formats, the second one if any record is sequenced |
| Snapshot.ReachedRestorable | crates/arachne-delivery/src/lib.rs:371-479 | every index a run reaches passes all of those checks |
| Snapshot.RestoredIsOwned | crates/arachne-delivery/src/lib.rs:371-479 | the snapshot of an index restores for its own workspace, author and epoch and for no other |
| Snapshot.RestoredReencodes | crates/arachne-delivery/src/lib.rs:337-479 | restored bytes are written again as themselves if and only if they mark their records only when one of them is sequenced |
| Snapshot.SnapshotFits | crates/arachne-delivery/src/lib.rs:337-367 | every reachable snapshot is within MAX_SNAPSHOT_BYTES |
| Snapshot.NarrowSound | crates/arachne-delivery/src/inbox.rs:1485-1511 | the shrinking loop ends; it fails if and only if the topics alone, without any record, do not fit; what it saves fits, keeps the head, only raises watermarks and restores as itself |
| Snapshot.SavedAnswersStand | crates/arachne-delivery/src/inbox.rs:1485-1511 | any selection that succeeds on the saved index succeeds on the live one with the same records |
| PublisherIndex.PublisherLog.constructor | crates/arachne-delivery/src/lib.rs:116-125 | a new index with an empty ghost history |
| PublisherIndex.PublisherLog.Append | crates/arachne-delivery/src/lib.rs:173-226 | in place: a refusal changes nothing; otherwise the ghost history grows by exactly the record and the bounded state still tells the truth about all of it |
| PublisherIndex.PublisherLog.EvictOldest | crates/arachne-delivery/src/lib.rs:227-240 | evicts exactly when something is held, and then the smallest number held anywhere |
| PublisherIndex.PublisherLog.Evict | crates/arachne-delivery/src/lib.rs:241-246 | in place: the front record of the topic goes, its number becomes the watermark, its weight leaves the counter |
| PublisherIndex.PublisherLog.Select | crates/arachne-delivery/src/lib.rs:294-333 | the loop over the selected topics and the sort return the window of the ghost history or a refusal |
| PublisherIndex.PublisherLog.WriteSnapshot | crates/arachne-delivery/src/lib.rs:337-367 | the buffer extended topic by topic is the encoding proved invertible |
| PublisherIndex.Restore | crates/arachne-delivery/src/lib.rs:371-479 | the cursor loop decodes, and returns the original for every snapshot of a reachable index |
| PublisherIndex.SaveBeside | crates/arachne-delivery/src/inbox.rs:1485-1511 | a copy is narrowed until it fits beside the inbox; the live index is untouched; the bundle is within the attachment bound |
| Wire.SelectionInjective | crates/arachne-delivery/src/lib.rs:516-525 | the selection digest names exactly one set of topics |
| Wire.FramedInjective | crates/arachne-delivery/src/receive.rs:198-217 | the framing hashed for a packet determines its context and its body |
| Wire.OfferedWasSigned | crates/arachne-delivery/src/wire.rs:697-782 | whatever verification offers was signed, packet for packet, for this very request |
| Wire.VerifiesExactly | crates/arachne-delivery/src/wire.rs:697-782 | packets are offered if and only if the query is formed and the reply, within its bound, holds in one of the two formats an offer that opens for this very request to exactly these packets, at most 32, each of the workspace, topics and number range asked for, with differing ids and rising numbers |
| Wire.DeclinesExactly | crates/arachne-delivery/src/wire.rs:697-782 | a refusal is reported if and only if the query is formed and the reply is that refusal's own status and nothing more |
| Wire.ServedWindow | crates/arachne-delivery/src/wire.rs:607-653 | an offer is made only within the owner's scope, and holds exactly the requested window of the full history, signed for this request, within the reply bound |
| Wire.ServeExactly | crates/arachne-delivery/src/wire.rs:607-653 | the answer is a denial if and only if the requester is not authorised or asks about another workspace, author or epoch; it is an offer if and only if the request is admitted and well formed, nothing selected was lost above its start, the window has at most 32 records and the reply fits; any other refusal names a reason that applies |
| Wire.ServedIsVerified | crates/arachne-delivery/src/wire.rs:607-782 | what an index serves verifies on any reader of the same query as exactly those publications, in order |
| Wire.ServeNeverFails | crates/arachne-delivery/src/wire.rs:607-653 | serving a reachable index always produces a reply, offer or refusal |
| Wire.WriteReply | crates/arachne-delivery/src/wire.rs:637-652 | the packet loop writes the reply bytes that verification reads back |
| Wire.VerifyReply | crates/arachne-delivery/src/wire.rs:697-782 | the cursor loop accepts exactly what the specification accepts, and only signed packet lists |
| Receive.AbsorbedAllHas | crates/arachne-delivery/src/receive.rs:126-180 | a staged recovery keeps all earlier evidence and holds the exact digest of every packet offered |
| Receive.AbsorbedAllExactly | crates/arachne-delivery/src/receive.rs:146-172 | the packets of an offer are all taken in if and only if nothing stands against any of them and there is room for the new ones |
| Receive.PrepareExactly | crates/arachne-delivery/src/receive.rs:126-180 | a reply is staged if and only if the owner is current, the reply verifies as an offer that continues the recorded progress and goes beyond it, there is room for its selection and its new records, and nothing stands against any packet; a refusal is turned down with its own reason, an offer within the progress is already covered |
| Receive.OfferedOwnIds | crates/arachne-delivery/src/receive.rs:146-172 | a verified offer never names a publication twice |
| Receive.RecoveryAdvances | crates/arachne-delivery/src/receive.rs:126-180 | an honest reply that continues the recorded progress, without conflicts and with new packets that open as the author's, is staged if and only if the journal has room for the new ones; then progress is at its end and every packet has its evidence |
| Receive.ReceiveJournal.Check | crates/arachne-delivery/src/receive.rs:220-232 | "known" is answered only when the exact evidence is present |
| Receive.RecordExactly | crates/arachne-delivery/src/receive.rs:220-252 | a live packet is known if and only if its exact evidence is present, unseen if and only if its id is free, and recorded if and only if it is known, or unseen with room left; known evidence changes nothing |
| Receive.ReceiveJournal.RecordVerified | crates/arachne-delivery/src/receive.rs:235-252 | a record is added without disturbing others; a refusal changes nothing |
| Receive.ReceiveJournal.PrepareRecovery | crates/arachne-delivery/src/receive.rs:126-180 | the loop over offered packets stages in a copy and leaves this journal alone |
| Publication.PlainInjective | crates/arachne-routing/src/publication.rs:20-35 | the plain authenticated bytes determine every field, the optional sequence included |
| Publication.DirectInjective | crates/arachne-routing/src/publication.rs:40-57 | the direct form determines context and recipients |
| Publication.LiveInjective | crates/arachne-delivery/src/current.rs:31-45 | the live-current form determines context, selector, key, expiry and tombstone |
| Publication.FormsDisjoint | crates/arachne-delivery/src/current.rs:31-45 | no plain, direct and live-current byte strings ever coincide |
| Publication.UnpackOfPacket | crates/arachne-routing/src/publication.rs:61-111 | unpacking a packet gives back its context and ciphertext |
| Publication.PacketOfUnpack | crates/arachne-routing/src/publication.rs:79-111 | whatever unpacks is the packet of what it unpacks to |
| Publication.DirectAuthenticatedBytes | crates/arachne-routing/src/publication.rs:40-57 | the buffer extended recipient by recipient is the injective direct form |
| Direct.GapMeans | crates/arachne-delivery/src/inbox.rs:735-780 | on any ordered stream: an error exactly when everything from the start to the largest number is retained; a gap starts at the earliest missing number above both floors and ends at the next retained number, the head, or after 32 numbers, except when the base is the largest number |
| Direct.NoGapExactly | crates/arachne-delivery/src/inbox.rs:735-780 | no gap is reported if and only if every number up to the head is retained and the head is below the largest number |
| Streams.LargestNumberReportsFalseGap | crates/arachne-delivery/src/inbox.rs:735-780 | a run from nothing: 33 small objects up to the last number but one, the largest announced, its gap skipped; nothing is missing and the same gap is still reported |
| Streams.LargestNumberFails | crates/arachne-delivery/src/inbox.rs:735-780 | a run from nothing: 33 small objects up to the largest number leave a complete stream that reports an error |
| Direct.ScanMeans | crates/arachne-delivery/src/inbox.rs:745-764 | the running `expected` stops at the first number not retained and names the next one that is; it fails exactly when there is no such number |
| Direct.ScanRecords | crates/arachne-delivery/src/inbox.rs:745-764 | the loop computes that scan, overflow error included |
| Direct.SkipExactly | crates/arachne-delivery/src/inbox.rs:1044-1089 | skipping accepts exactly the reported gap, returns exactly how many of its numbers have no record, keeps head and records, and moves the base past all of them, unless the base is the largest number: then the same gap stays |
| Direct.SkipAdvances | crates/arachne-delivery/src/inbox.rs:1044-1089 | after a skip the next gap, if any, starts strictly later if and only if the one skipped did not start just below the largest number |
| Direct.SettlesExactly | crates/arachne-delivery/src/inbox.rs:1044-1089 | repeated skips keep head and records, and end with no gap if and only if the head is below the largest number |
| Streams.NextGapMeans | crates/arachne-delivery/src/inbox.rs:735-780 | the answer is that of the first stream addressed to this member that does not report "no gap": its gap or its error |
| Streams.FindGap | crates/arachne-delivery/src/inbox.rs:735-780 | the loop over the streams finds that gap |
| Streams.SkipReported | crates/arachne-delivery/src/inbox.rs:1044-1089 | the reported gap is always accepted, on the reported stream only, with every head kept; it strictly lowers what is still open, unless that stream's base is the largest number |
| Streams.SettlesAllExactly | crates/arachne-delivery/src/inbox.rs:735-780 | reporting and skipping in turn ends with no gap if and only if every stream addressed to the member has its head below the largest number |
| Streams.NumbersNeverRepeat | crates/arachne-delivery/src/inbox.rs:681-731 | after any run, the number assigned next in a scope exceeds every number ever retained there, even once all copies are evicted |
| Streams.NextIsOneMore | crates/arachne-delivery/src/inbox.rs:681-731 | after any run, the number assigned next in a scope is exactly one more than the largest number the scope ever heard of, retained or announced, and there is none only after the largest 64-bit number |
| Streams.StepHeads | crates/arachne-delivery/src/inbox.rs:818-954 | each event moves exactly the head of its own scope, to the larger of the old head and the number it brings |
| Streams.HeadIsKnown | crates/arachne-delivery/src/inbox.rs:142-152 | on the streams this code builds the effective head is the known head |
| Streams.RetainWell | crates/arachne-delivery/src/inbox.rs:868-954 | retaining keeps every stream ordered and within 32 records, lets no head fall, and raises its own head to the object's number |
| Streams.RetainKeeps | crates/arachne-delivery/src/inbox.rs:868-954 | an object that meets that condition leaves every record above its floor and everything settled settled |
| Streams.PlacedKeepsFloor | crates/arachne-delivery/src/inbox.rs:904-931 | insertion keeps floors honest if and only if the number is above the floor, or equals it while the window is full |
| Streams.LateArrivalLowersFloor | crates/arachne-delivery/src/inbox.rs:904-931 | any number below the floor that arrives at a full window takes the floor down to itself |
| Streams.LateArrivalExample | crates/arachne-delivery/src/inbox.rs:868-954 | a run from nothing: numbers 8 to 40 are retained in order, then number 1; the floor falls from 8 to 1 and settled numbers are reported as a gap |
| Streams.ShrunkNarrows | crates/arachne-delivery/src/inbox.rs:932-953 | the byte-budget loop ends and only turns fronts of streams into floors |
| Streams.ShrinkToBudget | crates/arachne-delivery/src/inbox.rs:932-953 | the loop drops from the heaviest stream until the size is within the budget |
| Streams.ShrunkExactly | crates/arachne-delivery/src/inbox.rs:932-953 | the loop succeeds if and only if some number of evictions, each from the heaviest stream by then, brings the streams within the budget, and it makes the least such number |
| Streams.RetainExactly | crates/arachne-delivery/src/inbox.rs:868-954 | an object is retained if and only if there is a stream for it, and it is already held there, or its number and id are free and evictions can make room |
| Streams.Heaviest | crates/arachne-delivery/src/inbox.rs:939-950 | the stream chosen holds records, none holds more object bytes, and none after it as many |
| Streams.AnnouncedWell | crates/arachne-delivery/src/inbox.rs:818-866 | an announced head is adopted, and no head falls |
| Streams.AnnouncedExactly | crates/arachne-delivery/src/inbox.rs:818-866 | an announcement is nothing new if and only if the scope has heard of its number, and is refused if and only if the scope has no stream and there is no room |
| Streams.SkipWell | crates/arachne-delivery/src/inbox.rs:1044-1089 | a skip leaves every head where it was |
| Inbox.AtMostOnce | crates/arachne-delivery/src/inbox.rs:595-677 | over any run no author, topic and counter is prepared twice |
| Inbox.NeverLost | crates/arachne-delivery/src/inbox.rs:1195-1244 | a prepared object waits, with its bytes, until an acknowledgement or rejection names it by counter and id; one with another id resolves nothing |
| Inbox.NeverAgain | crates/arachne-delivery/src/inbox.rs:1195-1244 | once resolved, an object never waits again and its counter is never prepared again |
| Inbox.StepKeeps | crates/arachne-delivery/src/inbox.rs:595-677 | what each event does to each replay identity: seen stays seen, resolved stays resolved, waiting stays waiting unless named |
| Inbox.AuthenticatedExactly | crates/arachne-delivery/src/inbox.rs:238-275 | an object authenticates if and only if the inbox is current, the context is of its workspace, and the object opens under the bytes that bind it: the live-current bytes for current metadata, the plain bytes of a sequenced context without recipients, or the direct bytes with the local member among the recipients |
| Inbox.OneAudience | crates/arachne-delivery/src/inbox.rs:595-677 | an object that opens under one string of bytes only is prepared or a duplicate under no more than one context, list of recipients and metadata, in whatever inbox, and those are the ones that string binds |
| Inbox.StageExactly | crates/arachne-delivery/src/inbox.rs:595-677 | an authenticated object is prepared if and only if its counter is unseen, its id new to the stream, it is not older than a full window, a stream is free, the window has room, its direct copy can be retained and the candidate can be saved; it is a duplicate if and only if the stream holds a receipt of this very object; it is outside the window if and only if its counter is at or below the floor, or unseen with a new id and older than a full window |
| Inbox.StagedAgain | crates/arachne-delivery/src/inbox.rs:595-677 | an object just prepared is a duplicate when it is brought again |
| Inbox.PreparedAwaits | crates/arachne-delivery/src/inbox.rs:595-677 | preparing an object makes that object wait, which it did not before, and no other |
| Inbox.ResolvesExactly | crates/arachne-delivery/src/inbox.rs:1195-1244 | acknowledging or rejecting succeeds if and only if a receipt has this counter and id, and, for rejecting, still waits |
| Inbox.PushedExactly | crates/arachne-delivery/src/inbox.rs:663-671 | there is room for a new object if and only if the window is not full or its oldest receipt is resolved |
| Inbox.PushedKeeps | crates/arachne-delivery/src/inbox.rs:651-671 | making room drops only the oldest receipt, only if it is resolved, and the floor covers it |
| Inbox.ResolvedIsSettled | crates/arachne-delivery/src/inbox.rs:1195-1244 | a successful acknowledgement or rejection resolves exactly the object it names |
| Inbox.ResolvedRecords | crates/arachne-delivery/src/inbox.rs:1195-1244 | resolving drops the bytes and records the decision on that one receipt; every other receipt, every floor, every other stream and the direct streams stay as they were |
| Delivery.OrderExactly | crates/arachne-delivery/src/inbox.rs:1112-1191 | over every run: a sequenced direct object handed over above both floors has every number from the floors up to its own retained if and only if its own copy is |
| Delivery.OrderedDelivery | crates/arachne-delivery/src/inbox.rs:1112-1191 | over runs in which every direct object taken in does its floor no harm, that copy is always retained, and so is every lower number down to the floors |
| Delivery.NothingOvertakes | crates/arachne-delivery/src/inbox.rs:1112-1191 | over any run and for a whole scope: nothing of a deferred scope is handed over, and an earlier object of the same scope still waiting is a direct one behind a hole, with a larger number |
| Delivery.NoOvertaking | crates/arachne-delivery/src/inbox.rs:1112-1191 | the same within the stream of the object handed over, in any state |
| Unordered.LateArrivalUnorders | crates/arachne-delivery/src/inbox.rs:595-677 | a run from nothing: numbers 9 to 40 are staged, then 8, then 1, with two acknowledgements between; number 8 is handed over above both floors though none of 2 to 8 is retained |
| Delivery.HandedOverMeans | crates/arachne-delivery/src/inbox.rs:1112-1191 | an object comes from a waiting receipt that is not passed over, after all earlier ones of its stream were |
| Delivery.NothingHandedOver | crates/arachne-delivery/src/inbox.rs:1112-1191 | nothing is handed over if and only if every receipt is resolved, deferred, or behind a hole of its direct stream |
| Delivery.PassedExactly | crates/arachne-delivery/src/inbox.rs:1142-1172 | a waiting receipt is passed over if and only if its scope is deferred, or it is a sequenced direct one whose audience's stream lacks a number above both floors below one it retains up to the receipt's own |
| Delivery.HintsRefused | crates/arachne-delivery/src/inbox.rs:1112-1141 | the hints are refused if and only if there are more than 64, or one has no revision, more than 64 recipients, or recipients out of order; the inbox is not current if and only if it is of another workspace or epoch |
| Delivery.HandOverExactly | crates/arachne-delivery/src/inbox.rs:1167-1186 | a waiting receipt is handed over as an object if and only if its bytes open under what binds its own context, recipients and metadata, as made by its stream's author under its counter, and still have its digest |
| Delivery.StagedIsHandedOver | crates/arachne-delivery/src/inbox.rs:595-677 | a prepared object is handed over, from its receipt, with exactly the context, recipients, metadata and message it was staged with |
| Delivery.UnobstructedIsContiguous | crates/arachne-delivery/src/inbox.rs:1142-1166 | on any ordered stream, a retained number nothing obstructs has everything below it |
| Delivery.FindPending | crates/arachne-delivery/src/inbox.rs:1112-1191 | the loops over streams and receipts find that object |
| Delivery.RunAnchored | crates/arachne-delivery/src/inbox.rs:868-954 | along such runs every sequenced direct object received is retained or below its stream's base |
| Current.AcceptedReflected | crates/arachne-delivery/src/current.rs:437-529 | every accepted insertion is what its key holds at the end of the run, or the key holds a later number |
| Current.HeldWasAccepted | crates/arachne-delivery/src/current.rs:437-529 | every value held was accepted at some point of the run |
| Current.OrderIrrelevant | crates/arachne-delivery/src/current.rs:437-529 | two orders of the same insertions, all accepted, leave the same values |
| Current.CutRises | crates/arachne-delivery/src/current.rs:437-529 | a scope's cut rises by one exactly when what the scope serves changes |
| Current.EqualCutsEqualValues | crates/arachne-delivery/src/current.rs:531-558 | along a run cuts never fall and equal cuts mean equal served values |
| Current.InsertSound | crates/arachne-delivery/src/current.rs:588-625 | what `validate` demands is kept by every insertion |
| Current.ValidExactly | crates/arachne-delivery/src/current.rs:437-463 | a value is valid if and only if it is numbered, of this workspace, has an expiry, and its packet is one that carries its own context |
| Current.InsertExactly | crates/arachne-delivery/src/current.rs:464-529 | a valid value is accepted if and only if its key holds a larger number or exactly it, or the key is free with room or holds a smaller number, no other key has its id, the packets stay within their bound, and its scope has a cut below the largest or room for a new one; a known value changes nothing, a stored one is what its key holds afterwards and its scope's cut is one higher |
| Current.ServedHasCut | crates/arachne-delivery/src/current.rs:531-558 | a scope that serves something has a nonzero cut |
| Current.CurrentViewIndex.constructor | crates/arachne-delivery/src/current.rs:276-285 | a new index is empty |
| Current.CurrentViewIndex.Retained | crates/arachne-delivery/src/current.rs:294-299 | the loop adds up exactly the packets held |
| Current.CurrentViewIndex.Insert | crates/arachne-delivery/src/current.rs:437-529 | in place: an insertion succeeds if and only if the value is valid and known or storable; refusals change nothing, stale and repeated values are accepted without effect, and an accepted value is reflected |
| Manifest.VerifyOfProtect | crates/arachne-delivery/src/current.rs:628-694 | whatever an authority protects, a reader verifies as exactly that cut and those values, in either format |
| Manifest.VerifiedReencodes | crates/arachne-delivery/src/current.rs:648-694 | whatever verifies re-encodes to exactly the authenticated bytes |
| Manifest.VerifiesExactly | crates/arachne-delivery/src/current.rs:648-694 | a view verifies as a cut and values if and only if the reader is current, the manifest is exactly that of this cut and these values with a signature good for the authority and the query, the packets are theirs, and all is within the bound |
| Manifest.EntriesExactly | crates/arachne-delivery/src/current.rs:707-756 | a manifest is written if and only if there are at most 64 values in rising key order, within the packet bound, each with an expiry and a packet that unpacks for the query with a number, and no two with one id |
| Manifest.QueryContextInjective | crates/arachne-delivery/src/current.rs:117-127 | the signed context determines the whole query |
| Manifest.ViewOfOneQuery | crates/arachne-delivery/src/current.rs:648-694 | a view whose signature is good for one context only verifies for no more than one query |
| Manifest.ManifestParsed | crates/arachne-delivery/src/current.rs:707-809 | parsing a written manifest gives back the cut and every entry |
| Manifest.WriteEntries | crates/arachne-delivery/src/current.rs:707-756 | the loop with its set of ids writes the manifest or the same error |
| Manifest.ViewReadBack | crates/arachne-delivery/src/current.rs:182-238 | a written view is read back as itself |
| Manifest.ReadsExactly | crates/arachne-delivery/src/current.rs:182-238 | a reply is read as a view if and only if it is that view's own bytes and every packet has a length a packet can have |
| Manifest.ServedListOrdered | crates/arachne-delivery/src/current.rs:531-558 | a sound index lists a scope's values in canonical key order, each under its own key |
| Manifest.ServedIsVerified | crates/arachne-delivery/src/current.rs:531-558 | every reachable index can serve every scope, within all size bounds, and the bytes verify as exactly its cut and values |
| Manifest.AnswerExactly | crates/arachne-delivery/src/current.rs:562-586 | an authorised request about this very index is answered with what verifies as the scope's cut and values, any other with one and the same denial, whatever the index holds |
| Manifest.ServedDetermined | crates/arachne-delivery/src/current.rs:531-558 | the bytes served depend on the scope's cut and values alone |
| IndexSnapshot.RoundTrip | crates/arachne-delivery/src/current.rs:302-435 | whatever index is saved is restored exactly: cuts, values, contexts, tombstones |
| IndexSnapshot.RestoresExactly | crates/arachne-delivery/src/current.rs:334-435 | any bytes within the bound are restored to an index if and only if it is of this workspace, authority and epoch, is one that `validate` accepts, and the bytes are its own, in the format with tombstone marks or, if it has no tombstones, in the older one |
| IndexSnapshot.ReachedIsRestored | crates/arachne-delivery/src/current.rs:302-435 | after any run of insertions, saving fails only for size, and restoring gives the index back |
| IndexSnapshot.RestoredIsOwned | crates/arachne-delivery/src/current.rs:334-435 | a snapshot restores for its own workspace, authority and epoch and for no other |
| IndexSnapshot.Validate | crates/arachne-delivery/src/current.rs:588-625 | the checks in the source's order decide exactly the invariant that every run of insertions keeps |
| IndexSnapshot.CheckEntries | crates/arachne-delivery/src/current.rs:602-623 | the loop with its growing set of ids and one unpacking per entry decides whether every entry is well formed under its key and all ids differ |
| IndexSnapshot.WriteSnapshot | crates/arachne-delivery/src/current.rs:302-332 | the buffer extended cut by cut and value by value is the invertible encoding, or the same error |
| IndexSnapshot.ReadSnapshot | crates/arachne-delivery/src/current.rs:334-435 | the cursor loops build a fresh index equal to the restored one, or fail with the same error |
| Reader.ReaderMonotone | crates/arachne-delivery/src/inbox.rs:392-491 | whatever order an authority's views arrive in, mixed with arbitrary replies about others, none is called conflicting, recorded cuts never fall, and each is a cut the run really had |
| Reader.ServedNeverConflicts | crates/arachne-delivery/src/inbox.rs:417-427 | one more served view is never called conflicting and keeps the reader consistent with the run |
| Reader.CutsNeverFall | crates/arachne-delivery/src/inbox.rs:392-491 | for any bytes at all: cuts only rise, and only the queried scope moves |
| Reader.AcceptedIsComplete | crates/arachne-delivery/src/inbox.rs:429-491 | an accepted view that moves the reader leaves every unexpired value delivered or waiting, and forgets nothing |
| Reader.AcceptExactly | crates/arachne-delivery/src/inbox.rs:392-491 | a verified view is accepted if and only if its bytes are the ones known for its cut, or its cut is new and later, there is room for its scope, the authority's endpoint is known, every value can be taken in its turn and the outcome can be saved |
| Reader.OutcomeExactly | crates/arachne-delivery/src/inbox.rs:417-427 | a verified view is rolled back if and only if the reader knows a later cut of its scope, and conflicting if and only if it knows the same cut with other bytes |
| Reader.StageValueTaken | crates/arachne-delivery/src/inbox.rs:432-467 | a value is taken if and only if it has expired, or unpacks for the query, opens for it as made by the queried authority at its endpoint, and is prepared by the inbox or there already |
| Reader.StageValueExactly | crates/arachne-delivery/src/inbox.rs:432-467 | an expired value is counted as stale and leaves the inbox as it was; another is counted as pending if and only if it makes its own object wait |
| Reader.AcceptedBrings | crates/arachne-delivery/src/inbox.rs:429-491 | what acceptance reports is what it did: the number of expired values, and the number of objects that wait now and did not before, each brought by an unexpired value of the verified view from the authority's own endpoint |
| Reader.StageView | crates/arachne-delivery/src/inbox.rs:432-467 | the loop over the values stages them one by one, and counts each as pending or stale at most once |
| Scheduler.BulkIsServed | crates/arachne-node/src/lib.rs:213-239 | any 18 consecutive pops serve a bulk message if bulk is never found empty, whatever is pushed between |
| Scheduler.CurrentIsServed | crates/arachne-node/src/lib.rs:213-239 | likewise a current message |
| Scheduler.SeventeenMayPass | crates/arachne-node/src/lib.rs:213-239 | seventeen pops may pass a waiting bulk message by |
| Scheduler.SeventeenMayPassCurrent | crates/arachne-node/src/lib.rs:213-239 | likewise a current message, when bulk has the first turn |
| Scheduler.BulkWaitsExample | crates/arachne-node/src/lib.rs:179-239 | a run from an empty queue after which a bulk message still waits, seventeen pops later |
| Scheduler.CurrentWaitsExample | crates/arachne-node/src/lib.rs:179-239 | and one for a current message |
| Scheduler.CriticalWithinTwo | crates/arachne-node/src/lib.rs:213-239 | the critical message at the head is served within two pops |
| Scheduler.PopServes | crates/arachne-node/src/lib.rs:213-239 | a pop returns nothing if and only if nothing waits |
| Scheduler.RunAccounted | crates/arachne-node/src/lib.rs:179-239 | over any run, critical and bulk messages accepted are those served followed by those waiting, in order; under each workspace, revision, topic, sender, replacement key and recipients what waits is the last value accepted, else the last accepted was the last served; all bounds hold |
| Scheduler.NothingLost | crates/arachne-node/src/lib.rs:179-239 | every accepted message is served, waiting, or followed by a later one accepted with the same workspace, revision, topic, sender, replacement key and recipients |
| Scheduler.SharedKey | crates/arachne-node/src/lib.rs:188-199 | two current messages share a key if and only if they agree on workspace, revision, topic, sender, replacement key and recipients |
| Scheduler.PushedExactly | crates/arachne-node/src/lib.rs:179-211 | a message is accepted if and only if the queue is open and its class has room, where a current one also finds room in the place of one with the same six fields; then it waits with everything that waited before except what it replaces |
| Scheduler.KeyLessExactly | crates/arachne-node/src/lib.rs:152-159 | keys are ordered by workspace, revision, topic, sender, replacement key and then recipient by recipient |
| Scheduler.FirstKey | crates/arachne-node/src/lib.rs:221-232 | the current message taken is the one with the least key |
| Scheduler.DeliveryQueue.constructor | crates/arachne-node/src/lib.rs:161-176 | a new queue is empty and open |
| Scheduler.DeliveryQueue.Push | crates/arachne-node/src/lib.rs:179-211 | in place: backpressure changes nothing; otherwise exactly one class grows or the message with the same six fields is replaced |
| Scheduler.DeliveryQueue.Pop | crates/arachne-node/src/lib.rs:213-239 | in place: the nested choice of the source is the fair choice the lemmas are about |
| Interest.NothingStaleFlies | crates/arachne-runtime/src/interest.rs:39-175 | over any run, whatever is put in flight has a valid topic and, if its key is still desired, is the update set last |
| Interest.ReplacedExactly | crates/arachne-runtime/src/interest.rs:94-106 | after a new revision of a workspace an update is queued, in repair, desired or in flight if and only if it was before and is of another workspace or of that revision; both lists keep their order |
| Interest.ReplacedStaysOut | crates/arachne-runtime/src/interest.rs:39-183 | over any run: from then on, until `set` asks for it again, no update of that workspace at another revision is in flight, queued, in repair or desired, and no event puts it in flight |
| Interest.NothingNew | crates/arachne-runtime/src/interest.rs:39-183 | no operation but `set` with an update brings that update in or puts it in flight |
| Interest.SetExactly | crates/arachne-runtime/src/interest.rs:39-62 | `set` is accepted if and only if the topic is valid and prepared, and the queue and the interests each have room or already hold the topic |
| Interest.SetPlaces | crates/arachne-runtime/src/interest.rs:56-75 | an accepted update is the one desired for its topic and leaves repair; it is put in flight if and only if nothing else is in flight, queued or in repair, and otherwise takes its topic's place in the queue or the last place |
| Interest.PollExactly | crates/arachne-runtime/src/interest.rs:108-175 | an unfinished announcement makes a poll change nothing; otherwise the first queued update, or with none queued the first in repair, is taken and put in flight if prepared; a retry is armed by every end but a clean one and taken up only when due and idle; an interest is forgotten if and only if its withdrawal ends cleanly |
| Interest.QueuesApart | crates/arachne-runtime/src/interest.rs:39-92 | at most one queued entry per key, and no key is both queued and in repair |
| Interest.NothingForgotten | crates/arachne-runtime/src/interest.rs:108-175 | without refusals, every desired key was announced last as desired or is queued, and is confirmed by all peers, in flight, queued, in repair, or a retry is due |
| Interest.RestMeansConfirmed | crates/arachne-runtime/src/interest.rs:108-175 | an idle announcer with no retry due has every desired interest confirmed |
| Interest.RefusalLoses | crates/arachne-runtime/src/interest.rs:150-168 | a refusal keeps every desired key sent or queued if and only if the dropped update is unwanted or was announced last; and keeps every desired key assured if and only if it is unwanted, confirmed, or a retry is due |
| Interest.KeptThroughout | crates/arachne-runtime/src/interest.rs:39-183 | both promises hold at every point of a run if and only if every refusal in it was harmless in that sense |
| Interest.RefusalExample | crates/arachne-runtime/src/interest.rs:150-168 | a run after which a desired interest was never announced and nothing will announce it |
| Interest.RepairRefusalExample | crates/arachne-runtime/src/interest.rs:150-168 | a run after which a desired interest was announced, a repair forgot its confirmation, and nothing will repeat it |
| Interest.RepairedIs | crates/arachne-runtime/src/interest.rs:79-92 | the repair list holds exactly the desired updates that are not queued, once each |
| Interest.NextSound | crates/arachne-runtime/src/interest.rs:39-183 | every operation, accepted or refused, keeps the lists distinct, apart, valid, bounded and in agreement with what is desired |
| Interest.Updates.Set | crates/arachne-runtime/src/interest.rs:39-75 | in place: a refusal changes nothing; otherwise the update is desired and in flight, or queued at its old place or at the end |
| Interest.Updates.Repair | crates/arachne-runtime/src/interest.rs:79-92 | in place: only the repair list is rebuilt |
| Interest.Updates.ReplaceRevision | crates/arachne-runtime/src/interest.rs:94-106 | in place: exactly the updates of the workspace at another revision go, from both lists, the interests and the flight |
| Interest.Updates.Poll | crates/arachne-runtime/src/interest.rs:108-175 | in place: retry, observe, dispatch, and the update returned is the one put in flight |
| Interest.Updates.Cancel | crates/arachne-runtime/src/interest.rs:177-183 | in place: everything is cleared |

## Left out

- OrderedDelivery: assumes that the direct objects taken in do their stream's floor no harm, because the code does not check it and order is lost otherwise (`Unordered.LateArrivalUnorders`); what holds without it is `Delivery.OrderExactly`.
- ServedIsVerified: assumes that the offer signed for the query opens, and has at most the 1240 bytes of a real one; the signature scheme itself is not modelled.
- NothingIsLost: assumes unforgeable signatures and a collision-free hash; the cryptography itself is not modelled.
- ReaderMonotone: assumes the authority's replies were served by its own index; replies altered in transit are covered only by `Reader.CutsNeverFall`.
- NeverAgain: says nothing about the `rejected` mark; `Inbox.ResolvedRecords` says that each acknowledgement or rejection sets it, so that an acknowledgement after a rejection clears it.
- Error texts: each static message is a constructor, and a few messages of one check share one.
- MLS group state, signatures, sealing, storage keys, sealed records and their replacement.
- Routing policy: authorisation to publish, subscribe or read history is a yes-or-no input.
- The JSON form of the inbox: only its size and whether a candidate can be saved are inputs; restoring an inbox is not modelled.
- Inbox caches: retained ranges and retained current views served for others, recovery coverage kept in the inbox, and legacy receipts.
- The saved form of the receive journal, and the combined saved form of journal and publisher index: one more codec of the kind proved for the publisher index.
- Query codecs, the bytes of cutoff replies and available-range envelopes (only their size counts), and direct-range transfer frames.
- Waking of waiting consumers, locks and closing notifications of the consumer queue: a push or a pop is one step.
- The retry clock of the announcer: whether a retry is due is an input of each poll.
- Transport, dialing, relays, overlay, connection budgets, resource transfer, membership, presence, catalogue, metrics, examples.
