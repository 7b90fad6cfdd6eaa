/** Replay evidence and durable pending objects. Models `stage_scoped`,
    `acknowledge`, `reject` and `pending_excluding` of
    crates/arachne-delivery/src/inbox.rs. Operations are copy-on-write: each
    returns a candidate or an error and leaves the inbox it was asked of alone. */
module Inbox {
  import opened Bytes
  import opened Ordering
  import opened Publication
  import opened Retention
  import opened Direct
  import opened Streams

  const MAX_STREAMS: nat := 4096

  type Digest = seq<byte>

  datatype Receipt = Receipt(counter: u64, revision: u64, id: Id16, sequence: u64, recipients: seq<Id32>,
                             current: Option<CurrentMetadata>, digest: Digest, pending: Option<seq<byte>>, rejected: bool)

  datatype Stream = Stream(author: Id32, topic: Topic, floor: u64, receipts: seq<Receipt>)

  datatype ObjectInbox = ObjectInbox(workspace: Id32, epoch: u64, streams: seq<Stream>, direct: seq<DirectStream>)

  /** An authenticated object: who made it, and its number among the objects of
      that member; the security layer refuses number zero. */
  datatype Opened = Opened(member: Id32, endpoint: Id32, counter: nonzero, payload: seq<byte>)

  /** What the inbox asks of its host: the security owner, the hash, the encoded
      size of the direct streams, and whether a whole candidate can be saved. */
  datatype Host = Host(workspace: Id32, epoch: u64, member: Option<Id32>,
                       unprotect: (seq<byte>, seq<byte>) -> Option<Opened>,
                       hash: seq<byte> -> Digest,
                       size: seq<DirectStream> -> nat,
                       fits: ObjectInbox -> bool)

  function AudienceAad(host: Host, c: Context, recipients: seq<Id32>): Result<seq<byte>> {
    if recipients == [] then
      if c.sequence.None? then Err(NoSequence) else Ok(AuthenticatedBytes(c))
    else
      var aad :- DirectBytes(c, recipients);
      if host.member.None? then Err(MemberRequired) else
      if host.member.value !in recipients then Err(ExcludesLocal) else Ok(aad)
  }

  function ReceiptAad(host: Host, c: Context, recipients: seq<Id32>, current: Option<CurrentMetadata>): Result<seq<byte>> {
    if current.Some? then if recipients == [] then Ok(LiveBytes(current.value, c)) else Err(CurrentWithRecipients)
    else AudienceAad(host, c, recipients)
  }

  function ContextOf(inbox: ObjectInbox, s: Stream, r: Receipt): Context {
    Context(inbox.workspace, r.revision, s.topic, r.id, if r.sequence == 0 then None else Some(r.sequence))
  }

  function AudienceOf(s: Stream, r: Receipt): Audience {
    Audience(s.author, r.revision, s.topic, r.recipients)
  }

  function Find(streams: seq<Stream>, author: Id32, topic: Topic): (r: Option<nat>)
    ensures r.Some? ==> r.value < |streams| && streams[r.value].author == author && streams[r.value].topic == topic
    ensures r.None? ==> forall i :: 0 <= i < |streams| ==> (streams[i].author, streams[i].topic) != (author, topic)
  {
    if streams == [] then None else
    if streams[0].author == author && streams[0].topic == topic then Some(0) else
    match Find(streams[1..], author, topic)
    case None => None
    case Some(i) => Some(i + 1)
  }

  /** The stream of an author and topic; one that was never opened is empty. */
  function View(streams: seq<Stream>, author: Id32, topic: Topic): Stream {
    var at := Find(streams, author, topic);
    if at.Some? then streams[at.value] else Stream(author, topic, 0, [])
  }

  /** Store a stream in its place, or at the end when it is new. */
  function Put(streams: seq<Stream>, s: Stream): seq<Stream> {
    var at := Find(streams, s.author, s.topic);
    if at.Some? then streams[at.value := s] else streams + [s]
  }

  function FindReceipt(receipts: seq<Receipt>, counter: u64): (r: Option<nat>)
    ensures r.Some? ==> r.value < |receipts| && receipts[r.value].counter == counter
    ensures r.None? ==> forall i :: 0 <= i < |receipts| ==> receipts[i].counter != counter
  {
    if receipts == [] then None else
    if receipts[0].counter == counter then Some(0) else
    match FindReceipt(receipts[1..], counter)
    case None => None
    case Some(i) => Some(i + 1)
  }

  function ByCounter(): Receipt -> int { (r: Receipt) => r.counter }

  /** Push, sort, and make room only by dropping a resolved oldest receipt. */
  function Pushed(s: Stream, r: Receipt): Result<Stream> {
    var sorted := SortBy(ByCounter(), s.receipts + [r]);
    if |sorted| <= WINDOW then Ok(s.(receipts := sorted)) else
    if sorted[0].pending.Some? then Err(PendingWindowFull) else
    Ok(s.(floor := sorted[0].counter, receipts := sorted[1..]))
  }

  datatype InboxStage = Duplicate | OutsideWindow | Prepared(inbox: ObjectInbox)

  /** What an existing stream already says about a counter: an answer, or None
      when the object is new to it. */
  function Screen(inbox: ObjectInbox, s: Stream, counter: u64, c: Context, recipients: seq<Id32>, current: Option<CurrentMetadata>, digest: Digest): Option<Result<InboxStage>> {
    if counter <= s.floor then Some(Ok(OutsideWindow)) else
    var known := FindReceipt(s.receipts, counter);
    if known.Some? then
      var r := s.receipts[known.value];
      if r.digest != digest || ContextOf(inbox, s, r) != c || r.recipients != recipients || r.current != current
      then Some(Err(ConflictingIdentity)) else Some(Ok(Duplicate))
    else if exists r :: r in s.receipts && r.id == c.id then Some(Err(IdentityReused))
    else if |s.receipts| == WINDOW && counter < s.receipts[0].counter then Some(Ok(OutsideWindow))
    else None
  }

  function NewReceipt(host: Host, counter: u64, c: Context, recipients: seq<Id32>, current: Option<CurrentMetadata>, body: seq<byte>): Receipt {
    Receipt(counter, c.revision, c.id, if c.sequence.Some? then c.sequence.value else 0, recipients, current, host.hash(body), Some(body), false)
  }

  function Copy(c: Context, body: seq<byte>): DirectRecord
    requires c.sequence.Some?
  {
    DirectRecord(c.revision, c.id, c.sequence.value, body)
  }

  /** The candidate once an object is known to be new. */
  function Admit(host: Host, inbox: ObjectInbox, author: Id32, counter: u64, c: Context, recipients: seq<Id32>, current: Option<CurrentMetadata>, body: seq<byte>): Result<ObjectInbox> {
    var stream :- Pushed(View(inbox.streams, author, c.topic), NewReceipt(host, counter, c, recipients, current, body));
    var direct :- if recipients != [] && c.sequence.Some?
                  then RetainDirect(host.size, inbox.direct, Audience(author, c.revision, c.topic, recipients), Copy(c, body))
                  else Ok(inbox.direct);
    var next := inbox.(streams := Put(inbox.streams, stream), direct := direct);
    if host.fits(next) then Ok(next) else Err(ExceedsBound)
  }

  /** The member and counter an arriving object authenticates as. */
  function Authenticated(host: Host, inbox: ObjectInbox, c: Context, recipients: seq<Id32>, current: Option<CurrentMetadata>, body: seq<byte>): Result<Opened> {
    if (inbox.workspace, inbox.epoch) != (host.workspace, host.epoch) then Err(NotCurrent) else
    if c.workspace != inbox.workspace then Err(WrongScope) else
    var aad :- ReceiptAad(host, c, recipients, current);
    match host.unprotect(aad, body)
    case None => Err(Undecryptable)
    case Some(opened_) => Ok(opened_)
  }

  /** `stage_scoped`. */
  function Stage(host: Host, inbox: ObjectInbox, c: Context, recipients: seq<Id32>, current: Option<CurrentMetadata>, body: seq<byte>): Result<InboxStage> {
    var o :- Authenticated(host, inbox, c, recipients, current, body);
    var at := Find(inbox.streams, o.member, c.topic);
    var screen := if at.Some? then Screen(inbox, inbox.streams[at.value], o.counter, c, recipients, current, host.hash(body)) else None;
    if screen.Some? then screen.value else
    if at.None? && |inbox.streams| == MAX_STREAMS then Err(CapacityExhausted) else
    var next :- Admit(host, inbox, o.member, o.counter, c, recipients, current, body);
    Ok(Prepared(next))
  }

  /** `acknowledge` and `reject`: the same receipt is found by counter and id. */
  function Resolved(inbox: ObjectInbox, author: Id32, topic: Topic, counter: u64, id: Id16, rejecting: bool): Result<ObjectInbox> {
    var at := Find(inbox.streams, author, topic);
    if at.None? then Err(if rejecting then UnknownObject else UnknownStream) else
    var s := inbox.streams[at.value];
    var k := FindReceipt(s.receipts, counter);
    if k.None? || s.receipts[k.value].id != id then Err(UnknownObject) else
    if rejecting && s.receipts[k.value].pending.None? then Err(NotPending) else
    var r := s.receipts[k.value].(pending := None, rejected := rejecting);
    Ok(inbox.(streams := Put(inbox.streams, s.(receipts := s.receipts[k.value := r]))))
  }

  // -------------------------------------------------------------- invariants

  ghost predicate WellStream(s: Stream) {
    && StrictlyBy(ByCounter(), s.receipts) && |s.receipts| <= WINDOW
    && forall r :: r in s.receipts ==> r.counter > s.floor
  }

  /** What every run of the inbox keeps. */
  ghost predicate Sound(inbox: ObjectInbox) {
    UniqueStreams(inbox.streams) && forall i :: 0 <= i < |inbox.streams| ==> WellStream(inbox.streams[i])
  }

  /** One stream per author and topic. */
  ghost predicate UniqueStreams(streams: seq<Stream>) {
    forall i, j :: 0 <= i < j < |streams| ==> (streams[i].author, streams[i].topic) != (streams[j].author, streams[j].topic)
  }

  predicate Holds(s: Stream, counter: int) { exists r :: r in s.receipts && r.counter == counter }

  /** The counter was accepted before: at or below the floor, or with a receipt. */
  ghost predicate SeenIn(s: Stream, counter: int) { counter <= s.floor || Holds(s, counter) }

  /** The object with this counter waits for the application. */
  ghost predicate AwaitsIn(s: Stream, counter: int) { exists r :: r in s.receipts && r.counter == counter && r.pending.Some? }

  /** An object's replay identity. */
  datatype Key = Key(author: Id32, topic: Topic, counter: u64)

  ghost predicate Seen(inbox: ObjectInbox, k: Key) { SeenIn(View(inbox.streams, k.author, k.topic), k.counter) }

  ghost predicate Awaiting(inbox: ObjectInbox, k: Key) { AwaitsIn(View(inbox.streams, k.author, k.topic), k.counter) }

  /** The receipt under which an object waits. */
  ghost predicate Waits(inbox: ObjectInbox, k: Key, r: Receipt) {
    r in View(inbox.streams, k.author, k.topic).receipts && r.counter == k.counter && r.pending.Some?
  }

  // ------------------------------------------------------------ one stream

  /** Pushing a new counter keeps order and floor honest, forgets no counter,
      and never drops a pending receipt to make room. */
  lemma PushedKeeps(s: Stream, r: Receipt)
    requires WellStream(s) && !SeenIn(s, r.counter) && (|s.receipts| == WINDOW ==> s.receipts[0].counter <= r.counter)
    requires Pushed(s, r).Ok?
    ensures var t := Pushed(s, r).value;
            && WellStream(t) && t.author == s.author && t.topic == s.topic && s.floor <= t.floor
            && r in t.receipts
            && (forall x :: x in t.receipts ==> x == r || x in s.receipts)
            && (forall x :: x in s.receipts ==> x in t.receipts || (x.counter <= t.floor && x.pending.None?))
  {
    hide SortBy, StrictlyBy;
    forall x | x in s.receipts ensures ByCounter()(x) != ByCounter()(r) { assert x.counter != r.counter; }
    PushSorted(ByCounter(), s.receipts, r);
    var sorted := SortBy(ByCounter(), s.receipts + [r]);
    var t := Pushed(s, r).value;
    StrictFront(ByCounter(), sorted);
    assert sorted[0] in sorted;
    forall x | x in sorted[1..] ensures sorted[0].counter < x.counter { assert ByCounter()(sorted[0]) < ByCounter()(x); }
    if |sorted| > WINDOW {
      assert s.receipts[0] in s.receipts;
      assert sorted[0] != r;
    }
  }

  /** Resolving one receipt changes only whether that one waits. */
  lemma ResolvedKeeps(s: Stream, k: nat, rejecting: bool)
    requires WellStream(s) && k < |s.receipts|
    ensures var t := s.(receipts := s.receipts[k := s.receipts[k].(pending := None, rejected := rejecting)]);
            && WellStream(t)
            && (forall n :: SeenIn(t, n) <==> SeenIn(s, n))
            && (forall n :: AwaitsIn(t, n) <==> AwaitsIn(s, n) && n != s.receipts[k].counter)
            && (forall x :: x in s.receipts && x.counter != s.receipts[k].counter ==> x in t.receipts)
  {
    hide StrictlyBy;
    var was, now := s.receipts[k], s.receipts[k].(pending := None, rejected := rejecting);
    var t := s.(receipts := s.receipts[k := now]);
    ReplacedMembers(s.receipts, k, now);
    assert was in s.receipts && now in t.receipts;
  }

  /** Replacing a receipt by one with the same counter. */
  lemma ReplacedMembers(receipts: seq<Receipt>, k: nat, now: Receipt)
    requires StrictlyBy(ByCounter(), receipts) && k < |receipts| && now.counter == receipts[k].counter
    ensures StrictlyBy(ByCounter(), receipts[k := now])
    ensures forall x :: x in receipts[k := now] <==> x == now || (x in receipts && x.counter != now.counter)
  {
    var next := receipts[k := now];
    forall i, j | 0 <= i < j < |next| ensures ByCounter()(next[i]) < ByCounter()(next[j]) {
      assert ByCounter()(receipts[i]) < ByCounter()(receipts[j]);
    }
    forall x ensures x in next <==> x == now || (x in receipts && x.counter != now.counter) {
      if x in receipts && x.counter != now.counter {
        var i :| 0 <= i < |receipts| && receipts[i] == x;
        assert next[i] == x;
      }
      if x in next && x != now {
        var i :| 0 <= i < |next| && next[i] == x;
        assert receipts[i] == x && i != k;
        assert i < k ==> ByCounter()(receipts[i]) < ByCounter()(receipts[k]);
        assert k < i ==> ByCounter()(receipts[k]) < ByCounter()(receipts[i]);
      }
      assert next[k] == now;
    }
  }

  /** There is room for a new object exactly when the window is not full or its
      oldest receipt is resolved. */
  lemma PushedExactly(s: Stream, r: Receipt)
    requires WellStream(s) && !SeenIn(s, r.counter) && (|s.receipts| == WINDOW ==> s.receipts[0].counter <= r.counter)
    ensures Pushed(s, r).Ok? <==> |s.receipts| < WINDOW || s.receipts[0].pending.None?
  {
    hide SortBy, StrictlyBy;
    forall x | x in s.receipts ensures ByCounter()(x) != ByCounter()(r) { assert x.counter != r.counter; }
    PushSorted(ByCounter(), s.receipts, r);
    var sorted := SortBy(ByCounter(), s.receipts + [r]);
    if |s.receipts| == WINDOW {
      assert s.receipts[0] in s.receipts && s.receipts[0] in sorted && sorted[0] in sorted;
      FrontLeast(s.receipts);
      FrontLeast(sorted);
    }
  }

  lemma FrontLeast(receipts: seq<Receipt>)
    requires StrictlyBy(ByCounter(), receipts) && receipts != []
    ensures forall x :: x in receipts ==> x == receipts[0] || receipts[0].counter < x.counter
  {
    forall x | x in receipts ensures x == receipts[0] || receipts[0].counter < x.counter {
      var i :| 0 <= i < |receipts| && receipts[i] == x;
      if i > 0 { assert ByCounter()(receipts[0]) < ByCounter()(receipts[i]); }
    }
  }

  // ------------------------------------------------------------- all streams

  lemma {:induction false} FindPut(streams: seq<Stream>, i: nat, s: Stream, author: Id32, topic: Topic)
    requires i < |streams| && s.author == streams[i].author && s.topic == streams[i].topic
    ensures Find(streams[i := s], author, topic) == Find(streams, author, topic)
  {
    if i > 0 {
      assert streams[i := s][1..] == streams[1..][i - 1 := s];
      FindPut(streams[1..], i - 1, s, author, topic);
    } else {
      assert streams[i := s][1..] == streams[1..];
    }
  }

  lemma {:induction false} FindAppend(streams: seq<Stream>, s: Stream, author: Id32, topic: Topic)
    ensures Find(streams + [s], author, topic)
         == if Find(streams, author, topic).Some? then Find(streams, author, topic)
            else if (s.author, s.topic) == (author, topic) then Some(|streams|) else None
  {
    if streams != [] {
      assert (streams + [s])[1..] == streams[1..] + [s];
      FindAppend(streams[1..], s, author, topic);
    }
  }

  /** Storing a stream changes that stream's view and no other. */
  lemma ViewPut(streams: seq<Stream>, s: Stream, author: Id32, topic: Topic)
    ensures View(Put(streams, s), author, topic) == if (author, topic) == (s.author, s.topic) then s else View(streams, author, topic)
  {
    hide Find;
    var at := Find(streams, s.author, s.topic);
    if at.Some? { FindPut(streams, at.value, s, author, topic); } else { FindAppend(streams, s, author, topic); }
  }

  lemma ViewWell(inbox: ObjectInbox, author: Id32, topic: Topic)
    requires Sound(inbox)
    ensures WellStream(View(inbox.streams, author, topic))
  {
    hide Find;
  }

  lemma PutSound(inbox: ObjectInbox, s: Stream, next: ObjectInbox)
    requires Sound(inbox) && WellStream(s) && next.streams == Put(inbox.streams, s)
    ensures Sound(next)
  {
    hide Find, WellStream;
  }

  // ----------------------------------------------- what an object opens under

  /** The bytes an object with this context, these recipients and this metadata
      must be authenticated under; a direct one must name the local member. */
  predicate Binds(host: Host, aad: seq<byte>, c: Context, recipients: seq<Id32>, current: Option<CurrentMetadata>) {
    if current.Some? then recipients == [] && aad == LiveBytes(current.value, c) else
    if recipients == [] then c.sequence.Some? && aad == AuthenticatedBytes(c) else
    DirectBytes(c, recipients) == Ok(aad) && host.member.Some? && host.member.value in recipients
  }

  /** An object authenticates exactly when the inbox is current, the context is of
      its workspace, and the object opens under the bytes that bind it. */
  lemma AuthenticatedExactly(host: Host, inbox: ObjectInbox, c: Context, recipients: seq<Id32>, current: Option<CurrentMetadata>, body: seq<byte>, o: Opened)
    ensures Authenticated(host, inbox, c, recipients, current, body) == Ok(o) <==>
              && (inbox.workspace, inbox.epoch) == (host.workspace, host.epoch) && c.workspace == inbox.workspace
              && exists aad :: Binds(host, aad, c, recipients, current) && host.unprotect(aad, body) == Some(o)
  {
    hide AuthenticatedBytes, DirectBytes, LiveBytes;
    var aad := ReceiptAad(host, c, recipients, current);
    if aad.Ok? { assert Binds(host, aad.value, c, recipients, current); }
  }

  /** The same bytes never bind two contexts, audiences or metadata. */
  lemma BindsOnce(host: Host, aad: seq<byte>, c: Context, to: seq<Id32>, m: Option<CurrentMetadata>, d: Context, other: seq<Id32>, n: Option<CurrentMetadata>)
    requires Binds(host, aad, c, to, m) && Binds(host, aad, d, other, n)
    ensures (c, to, m) == (d, other, n)
  {
    hide AuthenticatedBytes, DirectBytes, LiveBytes;
    if m.Some? && n.Some? { LiveInjective(m.value, c, n.value, d); }
    else if m.Some? { FormsDisjoint(d, d, other, m.value, c); }
    else if n.Some? { FormsDisjoint(c, c, to, n.value, d); }
    else if to == [] && other == [] { PlainInjective(c, d); }
    else if to == [] { FormsDisjoint(c, d, other, CurrentMetadata(c.workspace, c.workspace, 0, false), c); }
    else if other == [] { FormsDisjoint(d, c, to, CurrentMetadata(c.workspace, c.workspace, 0, false), d); }
    else { DirectInjective(c, d, to, other); }
  }

  ghost predicate Received(host: Host, inbox: ObjectInbox, c: Context, recipients: seq<Id32>, current: Option<CurrentMetadata>, body: seq<byte>) {
    var stage := Stage(host, inbox, c, recipients, current, body); stage.Ok? && (stage.value.Prepared? || stage.value.Duplicate?)
  }

  /** One audience: an object that opens under one string of bytes only is received
      under no more than one context, list of recipients and metadata, whatever
      inbox it is brought to; and those are the ones that string binds. */
  lemma OneAudience(host: Host, body: seq<byte>, aad: seq<byte>,
                    inbox: ObjectInbox, c: Context, to: seq<Id32>, m: Option<CurrentMetadata>,
                    elsewhere: ObjectInbox, d: Context, other: seq<Id32>, n: Option<CurrentMetadata>)
    requires forall x :: host.unprotect(x, body).Some? ==> x == aad
    requires Received(host, inbox, c, to, m, body) && Received(host, elsewhere, d, other, n, body)
    ensures Binds(host, aad, c, to, m) && (c, to, m) == (d, other, n)
  {
    hide Stage, Authenticated, Binds;
    StageAuthenticates(host, inbox, c, to, m, body);
    StageAuthenticates(host, elsewhere, d, other, n, body);
    AuthenticatedExactly(host, inbox, c, to, m, body, Authenticated(host, inbox, c, to, m, body).value);
    AuthenticatedExactly(host, elsewhere, d, other, n, body, Authenticated(host, elsewhere, d, other, n, body).value);
    BindsOnce(host, aad, c, to, m, d, other, n);
  }

  /** The receipt is of this very object. */
  predicate SameObject(host: Host, inbox: ObjectInbox, s: Stream, r: Receipt, o: Opened, c: Context, recipients: seq<Id32>, current: Option<CurrentMetadata>, body: seq<byte>) {
    r.counter == o.counter && r.digest == host.hash(body) && ContextOf(inbox, s, r) == c && r.recipients == recipients && r.current == current
  }

  predicate KnowsId(s: Stream, id: Id16) { exists r :: r in s.receipts && r.id == id }

  predicate TooOld(s: Stream, counter: u64) { |s.receipts| == WINDOW && counter < s.receipts[0].counter }

  lemma ScreenExactly(host: Host, inbox: ObjectInbox, s: Stream, o: Opened, c: Context, recipients: seq<Id32>, current: Option<CurrentMetadata>, body: seq<byte>)
    requires WellStream(s)
    ensures var screen := Screen(inbox, s, o.counter, c, recipients, current, host.hash(body));
            && (screen.None? <==> !SeenIn(s, o.counter) && !KnowsId(s, c.id) && !TooOld(s, o.counter))
            && (screen.Some? && screen.value.Ok? ==> !screen.value.value.Prepared?)
            && (screen == Some(Ok(Duplicate)) <==> exists r :: r in s.receipts && SameObject(host, inbox, s, r, o, c, recipients, current, body))
            && (screen == Some(Ok(OutsideWindow)) <==> o.counter <= s.floor || (!SeenIn(s, o.counter) && !KnowsId(s, c.id) && TooOld(s, o.counter)))
            && (screen == Some(Err(IdentityReused)) <==> !SeenIn(s, o.counter) && KnowsId(s, c.id))
            && (screen == Some(Err(ConflictingIdentity)) <==>
                  Holds(s, o.counter) && !exists r :: r in s.receipts && SameObject(host, inbox, s, r, o, c, recipients, current, body))
  {
    hide StrictlyBy;
    var known := FindReceipt(s.receipts, o.counter);
    hide FindReceipt;
    if known.Some? {
      var r := s.receipts[known.value];
      assert r in s.receipts;
      forall x | x in s.receipts && x.counter == o.counter ensures x == r { SameCounter(s.receipts, x, r); }
    }
  }

  lemma SameCounter(receipts: seq<Receipt>, a: Receipt, b: Receipt)
    requires StrictlyBy(ByCounter(), receipts) && a in receipts && b in receipts && a.counter == b.counter
    ensures a == b
  {
    var i :| 0 <= i < |receipts| && receipts[i] == a;
    var j :| 0 <= j < |receipts| && receipts[j] == b;
    assert i < j ==> ByCounter()(receipts[i]) < ByCounter()(receipts[j]);
    assert j < i ==> ByCounter()(receipts[j]) < ByCounter()(receipts[i]);
  }

  /** The inbox an object would leave behind, if its stream and its direct stream
      take it. */
  function Candidate(host: Host, inbox: ObjectInbox, author: Id32, counter: u64, c: Context, recipients: seq<Id32>, current: Option<CurrentMetadata>, body: seq<byte>): ObjectInbox {
    var stream := Pushed(View(inbox.streams, author, c.topic), NewReceipt(host, counter, c, recipients, current, body));
    var direct := Kept(host, inbox, author, c, recipients, body);
    if stream.Ok? && direct.Ok? then inbox.(streams := Put(inbox.streams, stream.value), direct := direct.value) else inbox
  }

  /** The direct streams with the object's copy, if it is a sequenced direct one. */
  function Kept(host: Host, inbox: ObjectInbox, author: Id32, c: Context, recipients: seq<Id32>, body: seq<byte>): Result<seq<DirectStream>> {
    if recipients != [] && c.sequence.Some?
    then RetainDirect(host.size, inbox.direct, Audience(author, c.revision, c.topic, recipients), Copy(c, body))
    else Ok(inbox.direct)
  }

  predicate HasRoom(s: Stream) { |s.receipts| < WINDOW || s.receipts[0].pending.None? }

  lemma AdmitExactly(host: Host, inbox: ObjectInbox, author: Id32, counter: u64, c: Context, recipients: seq<Id32>, current: Option<CurrentMetadata>, body: seq<byte>)
    requires var s := View(inbox.streams, author, c.topic); WellStream(s) && !SeenIn(s, counter) && !TooOld(s, counter)
    ensures Admit(host, inbox, author, counter, c, recipients, current, body).Ok? <==>
              && HasRoom(View(inbox.streams, author, c.topic)) && Kept(host, inbox, author, c, recipients, body).Ok?
              && host.fits(Candidate(host, inbox, author, counter, c, recipients, current, body))
  {
    hide Find, Pushed, RetainDirect, WellStream, Put, SeenIn;
    PushedExactly(View(inbox.streams, author, c.topic), NewReceipt(host, counter, c, recipients, current, body));
  }

  /** An authenticated object is prepared exactly when its counter was not seen,
      its id is new to the stream, it is not older than a full window, there is a
      stream for it, that stream has room, its direct copy can be retained and
      the candidate can be saved; it is a duplicate exactly when the stream holds
      a receipt of this very object; and it is outside the window exactly when its
      counter is at or below the floor, or unseen and older than a full window. */
  lemma StageExactly(host: Host, inbox: ObjectInbox, c: Context, recipients: seq<Id32>, current: Option<CurrentMetadata>, body: seq<byte>)
    requires Sound(inbox) && Authenticated(host, inbox, c, recipients, current, body).Ok?
    ensures var o := Authenticated(host, inbox, c, recipients, current, body).value;
            var s := View(inbox.streams, o.member, c.topic);
            var stage := Stage(host, inbox, c, recipients, current, body);
            && ((stage.Ok? && stage.value.Prepared?) <==>
                  && !Seen(inbox, Key(o.member, c.topic, o.counter)) && !KnowsId(s, c.id) && !TooOld(s, o.counter)
                  && (Find(inbox.streams, o.member, c.topic).Some? || |inbox.streams| != MAX_STREAMS)
                  && HasRoom(s) && Kept(host, inbox, o.member, c, recipients, body).Ok?
                  && host.fits(Candidate(host, inbox, o.member, o.counter, c, recipients, current, body)))
            && (stage == Ok(Duplicate) <==> exists r :: r in s.receipts && SameObject(host, inbox, s, r, o, c, recipients, current, body))
            && (stage == Ok(OutsideWindow) <==> o.counter <= s.floor || (!SeenIn(s, o.counter) && !KnowsId(s, c.id) && TooOld(s, o.counter)))
  {
    hide Find, Screen, Admit, Authenticated, SameObject, WellStream, Kept, Candidate, HasRoom;
    var o := Authenticated(host, inbox, c, recipients, current, body).value;
    var s := View(inbox.streams, o.member, c.topic);
    ViewWell(inbox, o.member, c.topic);
    ScreenExactly(host, inbox, s, o, c, recipients, current, body);
    if !SeenIn(s, o.counter) && !TooOld(s, o.counter) { AdmitExactly(host, inbox, o.member, o.counter, c, recipients, current, body); }
  }

  /** Acknowledging or rejecting succeeds exactly on a receipt with this counter
      and id, rejecting only while it waits. */
  lemma ResolvesExactly(inbox: ObjectInbox, author: Id32, topic: Topic, counter: u64, id: Id16, rejecting: bool)
    requires Sound(inbox)
    ensures Resolved(inbox, author, topic, counter, id, rejecting).Ok? <==>
              exists r :: r in View(inbox.streams, author, topic).receipts && r.counter == counter && r.id == id && (rejecting ==> r.pending.Some?)
  {
    hide Find, StrictlyBy;
    ViewWell(inbox, author, topic);
    var s := View(inbox.streams, author, topic);
    var known := FindReceipt(s.receipts, counter);
    hide FindReceipt;
    if known.Some? {
      var r := s.receipts[known.value];
      assert r in s.receipts;
      forall x | x in s.receipts && x.counter == counter ensures x == r { SameCounter(s.receipts, x, r); }
    }
  }

  // -------------------------------------------------------------- one event

  datatype InboxEvent =
    | Staging(context: Context, recipients: seq<Id32>, current: Option<CurrentMetadata>, body: seq<byte>)
    | Acknowledging(author: Id32, topic: Topic, counter: u64, id: Id16)
    | Rejecting(author: Id32, topic: Topic, counter: u64, id: Id16)
    | Streaming(change: StreamEvent)

  /** The inbox after the host adopted a candidate; anything else changes nothing. */
  function Next(host: Host, inbox: ObjectInbox, e: InboxEvent): ObjectInbox {
    match e
    case Staging(c, recipients, current, body) =>
      var stage := Stage(host, inbox, c, recipients, current, body);
      if stage.Ok? && stage.value.Prepared? then stage.value.inbox else inbox
    case Acknowledging(author, topic, counter, id) =>
      var next := Resolved(inbox, author, topic, counter, id, false); if next.Ok? then next.value else inbox
    case Rejecting(author, topic, counter, id) =>
      var next := Resolved(inbox, author, topic, counter, id, true); if next.Ok? then next.value else inbox
    case Streaming(change) =>
      var next := inbox.(direct := After(host.size, inbox.direct, change)); if host.fits(next) then next else inbox
  }

  /** The object an event prepared, if it prepared one. */
  function PreparedKey(host: Host, inbox: ObjectInbox, e: InboxEvent): (k: Option<Key>)
    ensures k.Some? ==> e.Staging?
  {
    if !e.Staging? then None else
    match Stage(host, inbox, e.context, e.recipients, e.current, e.body)
    case Ok(Prepared(_)) =>
      var o := Authenticated(host, inbox, e.context, e.recipients, e.current, e.body);
      if o.Ok? then Some(Key(o.value.member, e.context.topic, o.value.counter)) else None
    case _ => None
  }

  /** The event is an acknowledgement or rejection of the object with this replay
      identity and this id. */
  predicate Names(e: InboxEvent, k: Key, id: Id16) {
    match e
    case Acknowledging(author, topic, counter, named) => Key(author, topic, counter) == k && named == id
    case Rejecting(author, topic, counter, named) => Key(author, topic, counter) == k && named == id
    case _ => false
  }

  lemma AdmitKeeps(host: Host, inbox: ObjectInbox, e: InboxEvent, k: Key)
    requires Sound(inbox) && PreparedKey(host, inbox, e).Some?
    ensures var p := PreparedKey(host, inbox, e).value;
            var next := Next(host, inbox, e);
            && Sound(next) && !Seen(inbox, p) && Seen(next, p)
            && (exists r :: Waits(next, p, r) && r.id == e.context.id && r.pending == Some(e.body))
            && (Seen(inbox, k) ==> Seen(next, k))
            && (Seen(inbox, k) && !Awaiting(inbox, k) ==> !Awaiting(next, k))
            && (forall r :: Waits(inbox, k, r) ==> Waits(next, k, r))
  {
    hide Find, Pushed, RetainDirect, WellStream, ReceiptAad;
    var o := Authenticated(host, inbox, e.context, e.recipients, e.current, e.body).value;
    var s := View(inbox.streams, o.member, e.context.topic);
    ViewWell(inbox, o.member, e.context.topic);
    ScreenUnseen(inbox, s, o.counter, e.context, e.recipients, e.current, host.hash(e.body));
    var r := NewReceipt(host, o.counter, e.context, e.recipients, e.current, e.body);
    PushedKeeps(s, r);
    var t := Pushed(s, r).value;
    var next := Next(host, inbox, e);
    PutSound(inbox, t, next);
    ViewPut(inbox.streams, t, k.author, k.topic);
    ViewPut(inbox.streams, t, o.member, e.context.topic);
    assert Waits(next, PreparedKey(host, inbox, e).value, r);
  }

  /** An object passes the screen only if its stream has not seen its counter. */
  lemma ScreenUnseen(inbox: ObjectInbox, s: Stream, counter: nonzero, c: Context, recipients: seq<Id32>, current: Option<CurrentMetadata>, digest: Digest)
    ensures Screen(inbox, s, counter, c, recipients, current, digest).None? ==>
              !SeenIn(s, counter) && (|s.receipts| == WINDOW ==> s.receipts[0].counter <= counter)
    ensures s == Stream(s.author, s.topic, 0, []) ==> !SeenIn(s, counter)
  {
    var found := FindReceipt(s.receipts, counter);
    hide FindReceipt;
  }

  lemma OneReceipt(s: Stream, i: nat, r: Receipt)
    requires WellStream(s) && i < |s.receipts| && r in s.receipts && r.counter == s.receipts[i].counter
    ensures r == s.receipts[i]
  {
    SameCounter(s.receipts, r, s.receipts[i]);
  }

  lemma ResolveKeeps(host: Host, inbox: ObjectInbox, e: InboxEvent, k: Key)
    requires Sound(inbox) && (e.Acknowledging? || e.Rejecting?)
    ensures var next := Next(host, inbox, e);
            && Sound(next)
            && (Seen(inbox, k) ==> Seen(next, k))
            && (Awaiting(next, k) ==> Awaiting(inbox, k))
            && (forall r :: Waits(inbox, k, r) && !Names(e, k, r.id) ==> Waits(next, k, r))
  {
    hide Find, WellStream, FindReceipt;
    var next := Resolved(inbox, e.author, e.topic, e.counter, e.id, e.Rejecting?);
    if next.Ok? {
      var s := View(inbox.streams, e.author, e.topic);
      ViewWell(inbox, e.author, e.topic);
      var i := FindReceipt(s.receipts, e.counter).value;
      var t := s.(receipts := s.receipts[i := s.receipts[i].(pending := None, rejected := e.Rejecting?)]);
      ResolvedKeeps(s, i, e.Rejecting?);
      forall r | r in s.receipts && r.counter == e.counter ensures r.id == e.id { OneReceipt(s, i, r); }
      PutSound(inbox, t, next.value);
      ViewPut(inbox.streams, t, k.author, k.topic);
    }
  }

  /** A successful acknowledgement or rejection resolves the object it names. */
  lemma ResolvedIsSettled(inbox: ObjectInbox, author: Id32, topic: Topic, counter: u64, id: Id16, rejecting: bool)
    requires Sound(inbox) && Resolved(inbox, author, topic, counter, id, rejecting).Ok?
    ensures var next := Resolved(inbox, author, topic, counter, id, rejecting).value;
            var k := Key(author, topic, counter);
            Seen(next, k) && !Awaiting(next, k) && (rejecting ==> Awaiting(inbox, k))
  {
    hide Find, WellStream, FindReceipt;
    var next := Resolved(inbox, author, topic, counter, id, rejecting).value;
    var s := View(inbox.streams, author, topic);
    ViewWell(inbox, author, topic);
    var i := FindReceipt(s.receipts, counter).value;
    assert s.receipts[i] in s.receipts;
    var t := s.(receipts := s.receipts[i := s.receipts[i].(pending := None, rejected := rejecting)]);
    ResolvedKeeps(s, i, rejecting);
    ViewPut(inbox.streams, t, author, topic);
  }

  /** Resolving records the decision on that receipt and changes no other receipt,
      no floor, no other stream and no direct stream. */
  lemma ResolvedRecords(inbox: ObjectInbox, author: Id32, topic: Topic, counter: u64, id: Id16, rejecting: bool, r: Receipt)
    requires Sound(inbox) && Resolved(inbox, author, topic, counter, id, rejecting).Ok?
    requires r in View(inbox.streams, author, topic).receipts && r.counter == counter
    ensures var next := Resolved(inbox, author, topic, counter, id, rejecting).value;
            var s, t := View(inbox.streams, author, topic), View(next.streams, author, topic);
            && r.id == id && next == inbox.(streams := next.streams) && t == s.(receipts := t.receipts)
            && (forall x :: x in t.receipts <==> x == r.(pending := None, rejected := rejecting) || (x in s.receipts && x.counter != counter))
            && (forall a, p :: (a, p) != (author, topic) ==> View(next.streams, a, p) == View(inbox.streams, a, p))
  {
    hide Find, FindReceipt, StrictlyBy, Put, View;
    var next, t := Resolution(inbox, author, topic, counter, id, rejecting, r);
    ReplacedMembers(View(inbox.streams, author, topic).receipts, next, r.(pending := None, rejected := rejecting));
    forall a, p ensures View(Put(inbox.streams, t), a, p) == if (a, p) == (author, topic) then t else View(inbox.streams, a, p) { ViewPut(inbox.streams, t, a, p); }
  }

  lemma Resolution(inbox: ObjectInbox, author: Id32, topic: Topic, counter: u64, id: Id16, rejecting: bool, r: Receipt) returns (i: nat, t: Stream)
    requires Sound(inbox) && Resolved(inbox, author, topic, counter, id, rejecting).Ok?
    requires r in View(inbox.streams, author, topic).receipts && r.counter == counter
    ensures var s := View(inbox.streams, author, topic);
            && WellStream(s) && s.author == author && s.topic == topic && i < |s.receipts| && s.receipts[i] == r && r.id == id
            && t == s.(receipts := s.receipts[i := r.(pending := None, rejected := rejecting)])
            && Resolved(inbox, author, topic, counter, id, rejecting).value == inbox.(streams := Put(inbox.streams, t))
  {
    hide Find, WellStream, FindReceipt;
    var s := View(inbox.streams, author, topic);
    ViewWell(inbox, author, topic);
    i := FindReceipt(s.receipts, counter).value;
    OneReceipt(s, i, r);
    t := s.(receipts := s.receipts[i := r.(pending := None, rejected := rejecting)]);
  }

  /** An object that was prepared is, brought again to the inbox it left behind,
      a duplicate. */
  lemma StagedAgain(host: Host, inbox: ObjectInbox, c: Context, recipients: seq<Id32>, current: Option<CurrentMetadata>, body: seq<byte>)
    requires Sound(inbox)
    requires var stage := Stage(host, inbox, c, recipients, current, body); stage.Ok? && stage.value.Prepared?
    ensures var next := Stage(host, inbox, c, recipients, current, body).value.inbox;
            Sound(next) && Stage(host, next, c, recipients, current, body) == Ok(Duplicate)
  {
    var next, o, r := PreparedReceipt(host, inbox, c, recipients, current, body);
    hide Sound, Stage, View, NewReceipt;
    StageExactly(host, next, c, recipients, current, body);
  }

  /** What preparing an object leaves behind: the inbox of the same workspace and
      epoch, holding this very object's receipt. */
  lemma PreparedReceipt(host: Host, inbox: ObjectInbox, c: Context, recipients: seq<Id32>, current: Option<CurrentMetadata>, body: seq<byte>)
    returns (next: ObjectInbox, o: Opened, r: Receipt)
    requires Sound(inbox)
    requires var stage := Stage(host, inbox, c, recipients, current, body); stage.Ok? && stage.value.Prepared?
    ensures Stage(host, inbox, c, recipients, current, body) == Ok(Prepared(next)) && Sound(next)
    ensures Authenticated(host, inbox, c, recipients, current, body) == Ok(o) && Authenticated(host, next, c, recipients, current, body) == Ok(o)
    ensures var s := View(next.streams, o.member, c.topic);
            && s.author == o.member && s.topic == c.topic && r in s.receipts && r == NewReceipt(host, o.counter, c, recipients, current, body)
            && SameObject(host, next, s, r, o, c, recipients, current, body)
  {
    hide Find, Pushed, RetainDirect, WellStream, ReceiptAad;
    StageAuthenticates(host, inbox, c, recipients, current, body);
    next := Stage(host, inbox, c, recipients, current, body).value.inbox;
    o := Authenticated(host, inbox, c, recipients, current, body).value;
    r := NewReceipt(host, o.counter, c, recipients, current, body);
    var s := View(inbox.streams, o.member, c.topic);
    ViewWell(inbox, o.member, c.topic);
    ScreenUnseen(inbox, s, o.counter, c, recipients, current, host.hash(body));
    PushedKeeps(s, r);
    var t := Pushed(s, r).value;
    PutSound(inbox, t, next);
    ViewPut(inbox.streams, t, o.member, c.topic);
  }

  /** Preparing an object makes that object wait, which it did not before, and no
      other. */
  lemma PreparedAwaits(host: Host, inbox: ObjectInbox, e: InboxEvent, k: Key)
    requires Sound(inbox) && PreparedKey(host, inbox, e).Some?
    ensures var p := PreparedKey(host, inbox, e).value;
            !Awaiting(inbox, p) && (Awaiting(Next(host, inbox, e), k) <==> Awaiting(inbox, k) || k == p)
  {
    hide Find, Pushed, RetainDirect, WellStream, ReceiptAad;
    var o := Authenticated(host, inbox, e.context, e.recipients, e.current, e.body).value;
    var s := View(inbox.streams, o.member, e.context.topic);
    ViewWell(inbox, o.member, e.context.topic);
    ScreenUnseen(inbox, s, o.counter, e.context, e.recipients, e.current, host.hash(e.body));
    var r := NewReceipt(host, o.counter, e.context, e.recipients, e.current, e.body);
    PushedKeeps(s, r);
    ViewPut(inbox.streams, Pushed(s, r).value, k.author, k.topic);
  }

  /** What every event does to every object's replay identity. */
  lemma StepKeeps(host: Host, inbox: ObjectInbox, e: InboxEvent, k: Key)
    requires Sound(inbox)
    ensures var next := Next(host, inbox, e);
            && Sound(next)
            && (Seen(inbox, k) ==> Seen(next, k))
            && (Seen(inbox, k) && !Awaiting(inbox, k) ==> !Awaiting(next, k))
            && (forall r :: Waits(inbox, k, r) && !Names(e, k, r.id) ==> Waits(next, k, r))
            && (PreparedKey(host, inbox, e) == Some(k) ==>
                  !Seen(inbox, k) && Seen(next, k) && exists r :: Waits(next, k, r) && r.id == e.context.id && r.pending == Some(e.body))
  {
    hide Stage, Resolved, After, Sound, View, SeenIn, AwaitsIn;
    match e
    case Staging(c, recipients, current, body) =>
      var stage := Stage(host, inbox, c, recipients, current, body);
      if stage.Ok? && stage.value.Prepared? {
        StageAuthenticates(host, inbox, c, recipients, current, body);
        AdmitKeeps(host, inbox, e, k);
      }
    case Acknowledging(_, _, _, _) => ResolveKeeps(host, inbox, e, k);
    case Rejecting(_, _, _, _) => ResolveKeeps(host, inbox, e, k);
    case Streaming(change) => DirectOnly(inbox, inbox.(direct := After(host.size, inbox.direct, change)), k);
  }

  lemma StageAuthenticates(host: Host, inbox: ObjectInbox, c: Context, recipients: seq<Id32>, current: Option<CurrentMetadata>, body: seq<byte>)
    requires Stage(host, inbox, c, recipients, current, body).Ok?
    ensures Authenticated(host, inbox, c, recipients, current, body).Ok?
  {
    hide Find, Screen, Admit;
  }

  lemma DirectOnly(inbox: ObjectInbox, next: ObjectInbox, k: Key)
    requires next.streams == inbox.streams
    ensures Sound(inbox) ==> Sound(next)
    ensures Seen(next, k) == Seen(inbox, k) && Awaiting(next, k) == Awaiting(inbox, k) && forall r :: Waits(next, k, r) == Waits(inbox, k, r)
  {
  }

  // ------------------------------------------------------------- whole runs

  ghost predicate IsRun(host: Host, states: seq<ObjectInbox>, events: seq<InboxEvent>) {
    && |states| == |events| + 1 && states[0].streams == []
    && forall i :: 0 <= i < |events| ==> states[i + 1] == Next(host, states[i], events[i])
  }

  lemma {:induction false} RunSound(host: Host, states: seq<ObjectInbox>, events: seq<InboxEvent>, n: nat)
    requires IsRun(host, states, events) && n <= |events|
    ensures Sound(states[n])
  {
    hide Next, WellStream;
    if n > 0 {
      RunSound(host, states, events, n - 1);
      StepKeeps(host, states[n - 1], events[n - 1], Key(states[0].workspace, ANY, 0));
    }
  }

  const ANY: Topic := [97]

  lemma {:induction false} StaysSeen(host: Host, states: seq<ObjectInbox>, events: seq<InboxEvent>, i: nat, j: nat, k: Key)
    requires IsRun(host, states, events) && i <= j <= |events| && Seen(states[i], k)
    ensures Seen(states[j], k)
    ensures !Awaiting(states[i], k) ==> !Awaiting(states[j], k)
    decreases j
  {
    hide Next, Seen, Awaiting;
    if i < j {
      StaysSeen(host, states, events, i, j - 1, k);
      RunSound(host, states, events, j - 1);
      StepKeeps(host, states[j - 1], events[j - 1], k);
    }
  }

  /** At most once: over any run no replay identity is prepared twice. */
  lemma AtMostOnce(host: Host, states: seq<ObjectInbox>, events: seq<InboxEvent>, i: nat, j: nat, k: Key)
    requires IsRun(host, states, events) && i < j < |events|
    requires PreparedKey(host, states[i], events[i]) == Some(k)
    ensures PreparedKey(host, states[j], events[j]) != Some(k)
  {
    hide Next, Seen, Awaiting, PreparedKey;
    RunSound(host, states, events, i);
    StepKeeps(host, states[i], events[i], k);
    StaysSeen(host, states, events, i + 1, j, k);
    RunSound(host, states, events, j);
    StepKeeps(host, states[j], events[j], k);
  }

  lemma {:induction false} WaitsUntilNamed(host: Host, states: seq<ObjectInbox>, events: seq<InboxEvent>, i: nat, j: nat, k: Key, r: Receipt)
    requires IsRun(host, states, events) && i <= j <= |events| && Waits(states[i], k, r)
    requires forall n :: i <= n < j ==> !Names(events[n], k, r.id)
    ensures Waits(states[j], k, r)
    decreases j
  {
    hide Next, Seen, Awaiting, Waits;
    if i < j {
      WaitsUntilNamed(host, states, events, i, j - 1, k, r);
      RunSound(host, states, events, j - 1);
      StepKeeps(host, states[j - 1], events[j - 1], k);
    }
  }

  /** Never lost: a prepared object waits, under its receipt and with its bytes,
      until an acknowledgement or rejection names it by counter and id. */
  lemma NeverLost(host: Host, states: seq<ObjectInbox>, events: seq<InboxEvent>, i: nat, j: nat, k: Key)
    requires IsRun(host, states, events) && i < j <= |events|
    requires PreparedKey(host, states[i], events[i]) == Some(k)
    requires forall n :: i < n < j ==> !Names(events[n], k, events[i].context.id)
    ensures exists r :: Waits(states[j], k, r) && r.id == events[i].context.id && r.pending == Some(events[i].body)
  {
    hide Next, Seen, Awaiting, PreparedKey;
    RunSound(host, states, events, i);
    StepKeeps(host, states[i], events[i], k);
    var r :| Waits(states[i + 1], k, r) && r.id == events[i].context.id && r.pending == Some(events[i].body);
    WaitsUntilNamed(host, states, events, i + 1, j, k, r);
  }

  /** Never again: once resolved, an object never waits a second time, and its
      counter is never prepared again. */
  lemma NeverAgain(host: Host, states: seq<ObjectInbox>, events: seq<InboxEvent>, i: nat, j: nat, k: Key)
    requires IsRun(host, states, events) && i <= j <= |events|
    requires Seen(states[i], k) && !Awaiting(states[i], k)
    ensures !Awaiting(states[j], k)
    ensures j < |events| ==> PreparedKey(host, states[j], events[j]) != Some(k)
  {
    hide Next, Seen, Awaiting, PreparedKey;
    StaysSeen(host, states, events, i, j, k);
    if j < |events| {
      RunSound(host, states, events, j);
      StepKeeps(host, states[j], events[j], k);
    }
  }
}
