/** Serving a retained range and verifying the reply. Models `serve_range` and
    `verify_reply` of crates/arachne-delivery/src/wire.rs, `selection_digest` of
    crates/arachne-delivery/src/lib.rs and the offers of
    crates/arachne-security/src/recovery.rs. */
module Wire {
  import opened Bytes
  import opened Ordering
  import opened Publication
  import opened Retention
  import opened Selection

  const MAX_OFFER_BYTES: nat := 1240
  const REPLY: seq<byte> := [68, 70, 82, 80, 1]
  const SEQUENCED_REPLY: seq<byte> := [68, 70, 82, 80, 2]
  const SELECTION_DOMAIN: seq<byte> := Ascii("data-fabric/exact-topic-selection/v1\0")
  const PACKET_DOMAIN: seq<byte> := Ascii("data-fabric/recovery-packet/v1\0")

  type Digest = seq<byte>

  datatype RangeQuery = RangeQuery(workspace: Id32, author: Id32, epoch: u64, after: u64, through: u64, topics: set<Topic>)

  /** What an author signs: the exact request and the ordered packet digests. */
  datatype Request = Request(workspace: Id32, author: Id32, epoch: u64, selection: Digest, after: u64, through: u64)

  /** The cryptography of the workspace, as functions. `open` is the check of an
      offer against the named author's key for one exact request. */
  datatype Security = Security(hash: seq<byte> -> Digest,
                               sign: (Request, seq<Digest>) -> seq<byte>,
                               open: (Request, seq<byte>) -> Option<seq<Digest>>)

  /** No two strings share a digest. */
  ghost predicate CollisionFree(sec: Security) {
    forall x, y :: sec.hash(x) == sec.hash(y) ==> x == y
  }


  // ------------------------------------------------------------------- digests

  function Flat(topics: seq<Topic>): seq<byte> {
    if topics == [] then [] else TopicBytes(topics[0]) + Flat(topics[1..])
  }

  function SelectionBytes(topics: set<Topic>): seq<byte> {
    SELECTION_DOMAIN + (U16Bytes(|topics|) + Flat(Listed(topics)))
  }

  function SelectionDigest(sec: Security, topics: set<Topic>): Digest {
    sec.hash(SelectionBytes(topics))
  }

  function Framed(domain: seq<byte>, c: Context, body: seq<byte>): seq<byte> {
    domain + (U32Bytes(|AuthenticatedBytes(c)|) + (AuthenticatedBytes(c) + (U32Bytes(|body|) + body)))
  }

  function PacketDigest(sec: Security, c: Context, ciphertext: seq<byte>): Digest {
    sec.hash(Framed(PACKET_DOMAIN, c, ciphertext))
  }

  lemma {:induction false} FlatInjective(a: seq<Topic>, b: seq<Topic>)
    requires Flat(a) == Flat(b)
    ensures a == b
  {
    if a != [] && b != [] {
      TopicWritten(a[0], Flat(a[1..]));
      TopicWritten(b[0], Flat(b[1..]));
      FlatInjective(a[1..], b[1..]);
    }
  }

  /** The selection binding names the exact set of topics. */
  lemma SelectionInjective(sec: Security, a: set<Topic>, b: set<Topic>)
    requires CollisionFree(sec) && SelectionDigest(sec, a) == SelectionDigest(sec, b)
    ensures a == b
  {
    hide Listed, U16Bytes, Flat, Elements;
    assert SelectionBytes(a) == SelectionBytes(b);
    SameFront(SELECTION_DOMAIN, SELECTION_DOMAIN, U16Bytes(|a|) + Flat(Listed(a)), U16Bytes(|b|) + Flat(Listed(b)));
    SameFront(U16Bytes(|a|), U16Bytes(|b|), Flat(Listed(a)), Flat(Listed(b)));
    FlatInjective(Listed(a), Listed(b));
    ListedDistinct(a);
    ListedDistinct(b);
  }

  /** A framed digest names its context and its body. */
  lemma FramedInjective(domain: seq<byte>, c: Context, x: seq<byte>, d: Context, y: seq<byte>)
    requires Framed(domain, c, x) == Framed(domain, d, y)
    ensures c == d && x == y
  {
    hide U32Bytes, AuthenticatedBytes;
    var xs := U32Bytes(|x|) + x;
    var ys := U32Bytes(|y|) + y;
    SameFront(domain, domain, U32Bytes(|AuthenticatedBytes(c)|) + (AuthenticatedBytes(c) + xs), U32Bytes(|AuthenticatedBytes(d)|) + (AuthenticatedBytes(d) + ys));
    SameFront(U32Bytes(|AuthenticatedBytes(c)|), U32Bytes(|AuthenticatedBytes(d)|), AuthenticatedBytes(c) + xs, AuthenticatedBytes(d) + ys);
    PlainSelfDelimiting(c, d, xs, ys);
    SameFront(U32Bytes(|x|), U32Bytes(|y|), x, y);
  }

  function RequestOf(sec: Security, q: RangeQuery): Request {
    Request(q.workspace, q.author, q.epoch, SelectionDigest(sec, q.topics), q.after, q.through)
  }

  /** The offer made of these packets for this query opens to their digests, and
      has at most the bytes of one over 32 packets: a header, a count, 32 digests
      of 32 bytes and a signature. */
  ghost predicate OfferOpens(sec: Security, q: RangeQuery, ps: seq<Recovered>) {
    var request, digests := RequestOf(sec, q), Digests(sec, ps);
    |sec.sign(request, digests)| <= MAX_OFFER_BYTES && sec.open(request, sec.sign(request, digests)) == Some(digests)
  }

  // ------------------------------------------------------------------- serving

  /** A packet as the reader gets it. */
  datatype Recovered = Recovered(context: Context, ciphertext: seq<byte>)

  function Carried(rs: seq<Record>): (ps: seq<Recovered>)
    ensures |ps| == |rs| && forall i :: 0 <= i < |rs| ==> ps[i] == Recovered(rs[i].context, rs[i].ciphertext)
  {
    seq(|rs|, i requires 0 <= i < |rs| => Recovered(rs[i].context, rs[i].ciphertext))
  }

  function Digests(sec: Security, ps: seq<Recovered>): (ds: seq<Digest>)
    ensures |ds| == |ps| && forall i :: 0 <= i < |ps| ==> ds[i] == PacketDigest(sec, ps[i].context, ps[i].ciphertext)
  {
    seq(|ps|, i requires 0 <= i < |ps| => PacketDigest(sec, ps[i].context, ps[i].ciphertext))
  }

  predicate NoRepeats(ds: seq<Digest>) {
    forall i, j :: 0 <= i < j < |ds| ==> ds[i] != ds[j]
  }

  datatype Rejection = Denied | OfHistory(error: RangeError)

  function StatusOf(e: Rejection): byte {
    match e
    case Denied => 1
    case OfHistory(Invalid) => 2
    case OfHistory(Unavailable) => 3
    case OfHistory(Empty) => 4
    case OfHistory(TooLarge) => 5
  }

  function Rejected(e: Rejection): seq<byte> { REPLY + [StatusOf(e)] }

  function SequenceBytes(c: Context, sequenced: bool): (b: seq<byte>)
    ensures |b| == if sequenced then 8 else 0
  {
    if sequenced then U64Bytes(if c.sequence.Some? then c.sequence.value else 0) else []
  }

  function PacketBytes(p: Recovered, sequenced: bool, rest: seq<byte>): seq<byte> {
    U64Bytes(p.context.revision) + (TopicBytes(p.context.topic) + (p.context.id + (SequenceBytes(p.context, sequenced)
      + (U32Bytes(|p.ciphertext|) + (p.ciphertext + rest)))))
  }

  function PacketsBytes(ps: seq<Recovered>, sequenced: bool): seq<byte> {
    if ps == [] then [] else PacketBytes(ps[0], sequenced, PacketsBytes(ps[1..], sequenced))
  }

  predicate Sequenced(ps: seq<Recovered>) {
    exists p :: p in ps && p.context.sequence.Some?
  }

  function Format(sequenced: bool): seq<byte> { if sequenced then SEQUENCED_REPLY else REPLY }

  /** An offer in either format; only the second numbers the packets. */
  function OfferBytes(offer: seq<byte>, ps: seq<Recovered>, sequenced: bool): seq<byte>
    requires |ps| <= MAX_RECOVERY_PACKETS
  {
    Format(sequenced) + ([0] + (U16Bytes(|offer|) + (offer + ([|ps|] + PacketsBytes(ps, sequenced)))))
  }

  function ReplyBytes(offer: seq<byte>, ps: seq<Recovered>): seq<byte>
    requires |ps| <= MAX_RECOVERY_PACKETS
  {
    OfferBytes(offer, ps, Sequenced(ps))
  }

  /** The size the server adds up before writing anything. */
  function PacketsSize(ps: seq<Recovered>, sequenced: bool): nat {
    if ps == [] then 0 else
    8 + 1 + |ps[0].context.topic| + 16 + 4 + |ps[0].ciphertext| + (if sequenced then 8 else 0) + PacketsSize(ps[1..], sequenced)
  }

  datatype Served = Declines(error: Rejection) | Offers(packets: seq<Recovered>, offer: seq<byte>)

  /** `serve_range` up to the writing: `authorized` is the routing policy's
      verdict on the requester. */
  function Serve(sec: Security, log: Log, authorized: bool, q: RangeQuery): Result<Served> {
    if !authorized || (q.workspace, q.author, q.epoch) != (log.workspace, log.author, log.epoch) then Ok(Declines(Denied)) else
    match Select(log, q.after, q.through, q.topics)
    case Refused(e) => Ok(Declines(OfHistory(e)))
    case Found(rs) =>
      var ps := Carried(rs);
      if !NoRepeats(Digests(sec, ps)) then Err(IdentityReused) else
      var offer := sec.sign(RequestOf(sec, q), Digests(sec, ps));
      if 9 + |offer| + PacketsSize(ps, Sequenced(ps)) > MAX_REPLY_BYTES then Ok(Declines(OfHistory(TooLarge))) else
      Ok(Offers(ps, offer))
  }

  function ServedBytes(s: Served): seq<byte>
    requires s.Offers? ==> |s.packets| <= MAX_RECOVERY_PACKETS
  {
    match s
    case Declines(e) => Rejected(e)
    case Offers(ps, offer) => ReplyBytes(offer, ps)
  }

  // ----------------------------------------------------------------- verifying

  datatype PacketReader = PacketReader(input: seq<byte>, packets: seq<Recovered>, ids: set<Id16>, last: u64)

  function ReadSequence(sequenced: bool, input: seq<byte>): Result<Read<Option<nonzero>>> {
    if !sequenced then Ok(Read(None, input)) else
    var n :- TakeU64(input);
    Ok(Read(if n.value == 0 then None else Some(n.value), n.rest))
  }

  function ReadPacket(at: PacketReader, q: RangeQuery, sequenced: bool): Result<PacketReader> {
    var revision :- TakeU64(at.input);
    var topic :- TakeTopic(revision.rest);
    var id :- Take(topic.rest, 16);
    var sequence :- ReadSequence(sequenced, id.rest);
    if sequence.value.Some? && (sequence.value.value <= at.last || sequence.value.value > q.through) then Err(SequenceOutsideRange) else
    if topic.value !in q.topics || id.value in at.ids then Err(UnexpectedTopicOrId) else
    var length :- TakeU32(sequence.rest);
    if length.value == 0 || length.value > MAX_APPLICATION_CIPHERTEXT then Err(InvalidLength) else
    var body :- Take(length.rest, length.value);
    var p := Recovered(Context(q.workspace, revision.value, topic.value, id.value, sequence.value), body.value);
    Ok(PacketReader(body.rest, at.packets + [p], at.ids + {id.value}, if sequence.value.Some? then sequence.value.value else at.last))
  }

  function ReadPackets(at: PacketReader, q: RangeQuery, sequenced: bool, count: nat): Result<PacketReader>
    decreases count
  {
    if count == 0 then Ok(at) else
    var next :- ReadPacket(at, q, sequenced);
    ReadPackets(next, q, sequenced, count - 1)
  }

  datatype Reply = Offered(packets: seq<Recovered>) | Declined(error: Rejection)

  function StatusError(status: byte): Result<Rejection> {
    match status
    case 1 => Ok(Denied)
    case 2 => Ok(OfHistory(Invalid))
    case 3 => Ok(OfHistory(Unavailable))
    case 4 => Ok(OfHistory(Empty))
    case 5 => Ok(OfHistory(TooLarge))
    case _ => Err(InvalidMarker)
  }

  datatype Framing = Status(error: Rejection) | Framing(sequenced: bool, offer: seq<byte>, count: nat, rest: seq<byte>)

  /** The fixed part of a reply: format, status, the offer and the count. */
  function ReadFraming(q: RangeQuery, bytes: seq<byte>): Result<Framing> {
    if q.after >= q.through || q.topics == {} || |q.topics| > MAX_TOPICS then Err(InvalidQuery) else
    if |bytes| > MAX_REPLY_BYTES then Err(ExceedsBound) else
    var magic :- Take(bytes, 5);
    if magic.value != REPLY && magic.value != SEQUENCED_REPLY then Err(WrongFormat) else
    var status :- TakeByte(magic.rest);
    if status.value != 0 then
      if status.rest != [] then Err(Trailing) else
      var e :- StatusError(status.value);
      Ok(Status(e))
    else
      var length :- TakeU16(status.rest);
      var offer :- Take(length.rest, length.value);
      var count :- TakeByte(offer.rest);
      if count.value > MAX_RECOVERY_PACKETS then Err(PacketLimit) else
      Ok(Framing(magic.value == SEQUENCED_REPLY, offer.value, count.value, count.rest))
  }

  function Begin(q: RangeQuery, rest: seq<byte>): PacketReader { PacketReader(rest, [], {}, q.after) }

  /** `verify_reply`: nothing is offered unless every packet is the one the
      author signed, in order. */
  function Verify(sec: Security, q: RangeQuery, bytes: seq<byte>): Result<Reply> {
    var framing :- ReadFraming(q, bytes);
    match framing
    case Status(e) => Ok(Declined(e))
    case Framing(sequenced, offer, count, rest) =>
      var end :- ReadPackets(Begin(q, rest), q, sequenced, count);
      if end.input != [] then Err(Trailing) else
      match sec.open(RequestOf(sec, q), offer)
      case None => Err(BadSignature)
      case Some(digests) =>
        if |digests| != |end.packets| then Err(IncompleteResponse) else
        if Digests(sec, end.packets) != digests then Err(PacketMismatch) else
        Ok(Offered(end.packets))
  }

  /** The reply, written packet by packet into one buffer. */
  method WriteReply(offer: seq<byte>, ps: seq<Recovered>) returns (buffer: seq<byte>)
    requires |ps| <= MAX_RECOVERY_PACKETS
    ensures buffer == ReplyBytes(offer, ps)
  {
    hide PacketsBytes, PacketBytes, U16Bytes, Sequenced;
    var sequenced := Sequenced(ps);
    buffer := (if sequenced then SEQUENCED_REPLY else REPLY) + [0] + U16Bytes(|offer|) + offer + [|ps|];
    assert ps[0..] == ps;
    assert buffer + PacketsBytes(ps, sequenced) == ReplyBytes(offer, ps);
    hide ReplyBytes;
    var i := 0;
    while i < |ps|
      invariant i <= |ps|
      invariant buffer + PacketsBytes(ps[i..], sequenced) == ReplyBytes(offer, ps)
    {
      PacketsUnfold(ps, i, sequenced);
      buffer := WritePacket(buffer, ps[i], sequenced, PacketsBytes(ps[i + 1..], sequenced));
      i := i + 1;
    }
    PacketsUnfold(ps, i, sequenced);
    assert buffer + [] == buffer;
  }

  lemma PacketsUnfold(ps: seq<Recovered>, k: nat, sequenced: bool)
    requires k <= |ps|
    ensures k < |ps| ==> PacketsBytes(ps[k..], sequenced) == PacketBytes(ps[k], sequenced, PacketsBytes(ps[k + 1..], sequenced))
    ensures k == |ps| ==> PacketsBytes(ps[k..], sequenced) == []
  {
    if k < |ps| { assert ps[k..][1..] == ps[k + 1..]; }
  }

  method WritePacket(buffer: seq<byte>, p: Recovered, sequenced: bool, ghost rest: seq<byte>) returns (next: seq<byte>)
    ensures next + rest == buffer + PacketBytes(p, sequenced, rest)
  {
    hide U64Bytes, U32Bytes, TopicBytes, SequenceBytes;
    next := buffer + U64Bytes(p.context.revision) + TopicBytes(p.context.topic) + p.context.id + SequenceBytes(p.context, sequenced)
            + U32Bytes(|p.ciphertext|) + p.ciphertext;
  }

  /** `verify_reply` as the cursor runs: packets are read one by one, and only
      then is the whole list held against the signed offer. */
  method VerifyReply(sec: Security, q: RangeQuery, bytes: seq<byte>) returns (r: Result<Reply>)
    ensures r == Verify(sec, q, bytes)
    ensures r.Ok? && r.value.Offered? ==>
              && OfferIn(q, bytes).Some?
              && sec.open(RequestOf(sec, q), OfferIn(q, bytes).value) == Some(Digests(sec, r.value.packets))
  {
    hide ReadPacket, ReadFraming, Digests, RequestOf;
    var framing := ReadFraming(q, bytes);
    if framing.Err? { return Err(framing.error); }
    if framing.value.Status? { return Ok(Declined(framing.value.error)); }
    var Framing(sequenced, offer, count, rest) := framing.value;
    var at := Begin(q, rest);
    var i := 0;
    while i < count
      invariant i <= count
      invariant ReadPackets(at, q, sequenced, count - i) == ReadPackets(Begin(q, rest), q, sequenced, count)
    {
      var next := ReadPacket(at, q, sequenced);
      if next.Err? { return Err(next.error); }
      at := next.value;
      i := i + 1;
    }
    if at.input != [] { return Err(Trailing); }
    var digests := sec.open(RequestOf(sec, q), offer);
    if digests.None? { return Err(BadSignature); }
    if |digests.value| != |at.packets| { return Err(IncompleteResponse); }
    if Digests(sec, at.packets) != digests.value { return Err(PacketMismatch); }
    r := Ok(Offered(at.packets));
  }

  /** The signed offer a reply carries, where it can be found at all. */
  function OfferIn(q: RangeQuery, bytes: seq<byte>): Option<seq<byte>> {
    match ReadFraming(q, bytes)
    case Ok(Framing(_, offer, _, _)) => Some(offer)
    case _ => None
  }

  /** Whatever is offered was signed, packet for packet, for this request. */
  lemma OfferedWasSigned(sec: Security, q: RangeQuery, bytes: seq<byte>)
    requires Verify(sec, q, bytes).Ok? && Verify(sec, q, bytes).value.Offered?
    ensures q.after < q.through && OfferIn(q, bytes).Some?
    ensures sec.open(RequestOf(sec, q), OfferIn(q, bytes).value) == Some(Digests(sec, Verify(sec, q, bytes).value.packets))
  {
    hide ReadPackets, Digests, RequestOf;
  }

  // ------------------------------------------- what is served can be verified

  lemma {:induction false} PacketsSizeIs(ps: seq<Recovered>, sequenced: bool)
    ensures |PacketsBytes(ps, sequenced)| == PacketsSize(ps, sequenced)
  {
    if ps != [] { PacketsSizeIs(ps[1..], sequenced); }
  }

  /** Records a reader of this query accepts, one after the other. */
  ghost predicate Servable(rs: seq<Record>, q: RangeQuery) {
    && (forall i :: 0 <= i < |rs| ==> q.after < rs[i].sequence <= q.through && Admissible(q.workspace, rs[i]) && rs[i].context.topic in q.topics)
    && StrictlyBy(BySequence(), rs)
    && (forall i, j :: 0 <= i < j < |rs| ==> rs[i].context.id != rs[j].context.id)
  }

  /** A packet that may answer this query. */
  predicate Fitting(q: RangeQuery, p: Recovered) {
    && p.context.workspace == q.workspace && p.context.topic in q.topics && 0 < |p.ciphertext| <= MAX_APPLICATION_CIPHERTEXT
    && (p.context.sequence.Some? ==> q.after < p.context.sequence.value <= q.through)
  }

  /** Packets that may answer it together: ids differ and numbers rise. */
  predicate Acceptable(q: RangeQuery, ps: seq<Recovered>) {
    && (forall p :: p in ps ==> Fitting(q, p))
    && (forall i, j :: 0 <= i < j < |ps| ==> ps[i].context.id != ps[j].context.id)
    && (forall i, j :: 0 <= i < j < |ps| && ps[i].context.sequence.Some? && ps[j].context.sequence.Some? ==>
          ps[i].context.sequence.value < ps[j].context.sequence.value)
  }

  /** The format can number the packets that have numbers. */
  predicate Numbers(ps: seq<Recovered>, sequenced: bool) { Sequenced(ps) ==> sequenced }

  /** The packet the reader takes next. */
  predicate Takes(at: PacketReader, q: RangeQuery, sequenced: bool, p: Recovered) {
    && Fitting(q, p) && p.context.id !in at.ids
    && (p.context.sequence.Some? ==> sequenced && at.last < p.context.sequence.value)
  }

  function Past(at: PacketReader, p: Recovered, rest: seq<byte>): PacketReader {
    PacketReader(rest, at.packets + [p], at.ids + {p.context.id}, if p.context.sequence.Some? then p.context.sequence.value else at.last)
  }

  lemma PacketRead(at: PacketReader, q: RangeQuery, sequenced: bool, p: Recovered, rest: seq<byte>)
    requires at.input == PacketBytes(p, sequenced, rest) && Takes(at, q, sequenced, p)
    ensures ReadPacket(at, q, sequenced) == Ok(Past(at, p, rest))
  {
    hide U64Bytes, U32Bytes, TopicBytes, Take, TakeU64, TakeU32, TakeTopic;
    var body := p.ciphertext + rest;
    var length := U32Bytes(|p.ciphertext|) + body;
    var sequence := SequenceBytes(p.context, sequenced) + length;
    var id := p.context.id + sequence;
    U64Written(p.context.revision, TopicBytes(p.context.topic) + id);
    TopicWritten(p.context.topic, id);
    TakeWritten(p.context.id, sequence);
    if sequenced { U64Written(if p.context.sequence.Some? then p.context.sequence.value else 0, length); } else { assert [] + length == length; }
    U32Written(|p.ciphertext|, body);
    TakeWritten(p.ciphertext, rest);
  }

  /** Whatever is read as a packet was written as that packet, and may be taken. */
  lemma PacketWas(at: PacketReader, q: RangeQuery, sequenced: bool) returns (p: Recovered)
    requires ReadPacket(at, q, sequenced).Ok? && at.last >= q.after
    ensures var next := ReadPacket(at, q, sequenced).value;
            at.input == PacketBytes(p, sequenced, next.input) && Takes(at, q, sequenced, p) && next == Past(at, p, next.input)
  {
    hide U64Bytes, U32Bytes, TopicBytes, Take, TakeU64, TakeU32, TakeTopic;
    p := ReadPacket(at, q, sequenced).value.packets[|at.packets|];
    var revision := TakeU64(at.input).value;
    var topic := TakeTopic(revision.rest).value;
    SequenceWas(sequenced, Take(topic.rest, 16).value.rest, p.context);
  }

  lemma SequenceWas(sequenced: bool, input: seq<byte>, c: Context)
    requires ReadSequence(sequenced, input).Ok? && c.sequence == ReadSequence(sequenced, input).value.value
    ensures input == SequenceBytes(c, sequenced) + ReadSequence(sequenced, input).value.rest
  {
    hide U64Bytes, TakeU64;
    if !sequenced { assert [] + input == input; }
  }

  /** The reader's sets and numbers speak of exactly these packets. */
  ghost predicate Tracks(at: PacketReader, q: RangeQuery, ps: seq<Recovered>) {
    && at.packets == ps && at.last >= q.after
    && (forall id :: id in at.ids <==> exists p :: p in ps && p.context.id == id)
    && (forall p :: p in ps && p.context.sequence.Some? ==> p.context.sequence.value <= at.last)
    && (at.last == q.after || exists p :: p in ps && p.context.sequence == Some(at.last))
  }

  /** The packet follows these: its id is new and its number larger. */
  predicate Follows(ps: seq<Recovered>, p: Recovered) {
    forall x :: x in ps ==> x.context.id != p.context.id
                            && (x.context.sequence.Some? && p.context.sequence.Some? ==> x.context.sequence.value < p.context.sequence.value)
  }

  lemma AcceptableMore(q: RangeQuery, ps: seq<Recovered>, p: Recovered)
    requires Acceptable(q, ps)
    ensures Acceptable(q, ps + [p]) <==> Fitting(q, p) && Follows(ps, p)
  {
    hide Fitting;
    var more := ps + [p];
    assert forall x :: x in more <==> x in ps || x == p;
    assert more[|ps|] == p;
    if Acceptable(q, more) {
      forall x | x in ps ensures x.context.id != p.context.id && (x.context.sequence.Some? && p.context.sequence.Some? ==> x.context.sequence.value < p.context.sequence.value) {
        var i :| 0 <= i < |ps| && ps[i] == x;
        assert more[i] == x;
      }
    }
    if Follows(ps, p) { assert forall i :: 0 <= i < |ps| ==> more[i] == ps[i] && ps[i] in ps; }
  }

  lemma TakesExactly(at: PacketReader, q: RangeQuery, ps: seq<Recovered>, sequenced: bool, p: Recovered)
    requires Tracks(at, q, ps) && Acceptable(q, ps)
    ensures Takes(at, q, sequenced, p) <==> Acceptable(q, ps + [p]) && (p.context.sequence.Some? ==> sequenced)
  {
    hide Acceptable;
    AcceptableMore(q, ps, p);
  }

  lemma TracksNext(at: PacketReader, q: RangeQuery, ps: seq<Recovered>, sequenced: bool, p: Recovered, rest: seq<byte>)
    requires Tracks(at, q, ps) && Takes(at, q, sequenced, p)
    ensures Tracks(Past(at, p, rest), q, ps + [p])
  {
    var more, next := ps + [p], Past(at, p, rest);
    assert forall x :: x in more <==> x in ps || x == p;
    assert p in more;
    forall id ensures id in next.ids <==> exists x :: x in more && x.context.id == id {
      if id in at.ids { var x :| x in ps && x.context.id == id; assert x in more; }
    }
    if p.context.sequence.None? && at.last != q.after {
      var x :| x in ps && x.context.sequence == Some(at.last);
      assert x in more;
    }
  }

  /** Packets that were read are those that were written, and acceptable. */
  lemma {:induction false} PacketsWere(at: PacketReader, q: RangeQuery, sequenced: bool, count: nat) returns (ps: seq<Recovered>)
    requires Tracks(at, q, at.packets) && Acceptable(q, at.packets) && Numbers(at.packets, sequenced)
    requires var end := ReadPackets(at, q, sequenced, count); end.Ok? && end.value.input == []
    ensures var end := ReadPackets(at, q, sequenced, count).value;
            && |ps| == count && end.packets == at.packets + ps && at.input == PacketsBytes(ps, sequenced)
            && Acceptable(q, end.packets) && Numbers(end.packets, sequenced)
    decreases count
  {
    hide ReadPacket, PacketBytes, Tracks, Acceptable, Numbers, Takes;
    if count == 0 { ps := []; } else {
      TracksFrom(at, q);
      var p := PacketWas(at, q, sequenced);
      var next := ReadPacket(at, q, sequenced).value;
      TakesExactly(at, q, at.packets, sequenced, p);
      TracksNext(at, q, at.packets, sequenced, p, next.input);
      NumbersMore(at.packets, p, sequenced);
      var rest := PacketsWere(next, q, sequenced, count - 1);
      ps := [p] + rest;
      assert ps[1..] == rest && at.packets + [p] + rest == at.packets + ps;
    }
  }

  lemma TracksFrom(at: PacketReader, q: RangeQuery)
    requires Tracks(at, q, at.packets)
    ensures at.last >= q.after
  {
  }

  lemma NumbersMore(ps: seq<Recovered>, p: Recovered, sequenced: bool)
    ensures Numbers(ps + [p], sequenced) <==> Numbers(ps, sequenced) && (p.context.sequence.Some? ==> sequenced)
  {
    var more := ps + [p];
    assert forall x :: x in more <==> x in ps || x == p;
    if Sequenced(ps) { var x :| x in ps && x.context.sequence.Some?; assert x in more; }
    assert p in more;
  }

  lemma AcceptablePrefix(q: RangeQuery, ps: seq<Recovered>, sequenced: bool, k: nat)
    requires Acceptable(q, ps) && Numbers(ps, sequenced) && k <= |ps|
    ensures Acceptable(q, ps[..k]) && Numbers(ps[..k], sequenced)
  {
    hide Fitting;
    assert forall p :: p in ps[..k] ==> p in ps;
  }

  /** Acceptable packets are read back, in order. */
  lemma {:induction false} PacketsRead(at: PacketReader, q: RangeQuery, ps: seq<Recovered>, sequenced: bool, k: nat) returns (end: PacketReader)
    requires k <= |ps| && Acceptable(q, ps) && Numbers(ps, sequenced)
    requires Tracks(at, q, ps[..k]) && at.input == PacketsBytes(ps[k..], sequenced)
    ensures ReadPackets(at, q, sequenced, |ps| - k) == Ok(end) && end.input == [] && end.packets == ps
    decreases |ps| - k
  {
    hide ReadPacket, PacketBytes, Acceptable, Numbers, Takes, Tracks;
    PacketsUnfold(ps, k, sequenced);
    if k == |ps| {
      assert ps[..k] == ps;
      TracksPackets(at, q, ps);
      end := at;
    } else {
      var p, rest := ps[k], PacketsBytes(ps[k + 1..], sequenced);
      AcceptablePrefix(q, ps, sequenced, k);
      AcceptablePrefix(q, ps, sequenced, k + 1);
      assert ps[..k] + [p] == ps[..k + 1];
      NumbersMore(ps[..k], p, sequenced);
      TakesExactly(at, q, ps[..k], sequenced, p);
      PacketRead(at, q, sequenced, p, rest);
      TracksNext(at, q, ps[..k], sequenced, p, rest);
      end := PacketsRead(Past(at, p, rest), q, ps, sequenced, k + 1);
    }
  }

  lemma TracksPackets(at: PacketReader, q: RangeQuery, ps: seq<Recovered>)
    requires Tracks(at, q, ps)
    ensures at.packets == ps
  {
  }

  lemma BeginTracks(q: RangeQuery, rest: seq<byte>)
    ensures Tracks(Begin(q, rest), q, []) && Acceptable(q, [])
  {
  }

  predicate Formed(q: RangeQuery) { q.after < q.through && 0 < |q.topics| <= MAX_TOPICS }

  lemma FramingRead(q: RangeQuery, offer: seq<byte>, ps: seq<Recovered>, sequenced: bool)
    requires |ps| <= MAX_RECOVERY_PACKETS && |offer| < 0x1_0000 && |OfferBytes(offer, ps, sequenced)| <= MAX_REPLY_BYTES && Formed(q)
    ensures ReadFraming(q, OfferBytes(offer, ps, sequenced)) == Ok(Framing(sequenced, offer, |ps|, PacketsBytes(ps, sequenced)))
  {
    hide U16Bytes, TakeU16, Take, TakeByte, PacketsBytes;
    var packets := PacketsBytes(ps, sequenced);
    var count := [|ps|] + packets;
    var length := U16Bytes(|offer|) + (offer + count);
    TakeWritten(Format(sequenced), [0] + length);
    ByteWritten(0, length);
    U16Written(|offer|, offer + count);
    TakeWritten(offer, count);
    ByteWritten(|ps|, packets);
    assert REPLY[4] != SEQUENCED_REPLY[4];
  }

  lemma FramingWas(q: RangeQuery, bytes: seq<byte>)
    requires ReadFraming(q, bytes).Ok?
    ensures Formed(q) && |bytes| <= MAX_REPLY_BYTES
    ensures match ReadFraming(q, bytes).value
            case Status(e) => exists sequenced :: bytes == Format(sequenced) + [StatusOf(e)]
            case Framing(sequenced, offer, count, rest) =>
              && count <= MAX_RECOVERY_PACKETS && |offer| < 0x1_0000
              && bytes == Format(sequenced) + ([0] + (U16Bytes(|offer|) + (offer + ([count] + rest))))
  {
    hide U16Bytes, TakeU16, Take, TakeByte;
    var magic := Take(bytes, 5).value;
    var sequenced := magic.value == SEQUENCED_REPLY;
    assert magic.value == Format(sequenced);
    var status := TakeByte(magic.rest).value;
    if status.value != 0 { assert bytes == Format(sequenced) + [status.value]; }
  }

  /** A reply holds, in one of the two formats, an offer of these packets that opens
      for the query to their digests. */
  ghost predicate OfferHolds(sec: Security, q: RangeQuery, bytes: seq<byte>, ps: seq<Recovered>, offer: seq<byte>, sequenced: bool)
    requires |ps| <= MAX_RECOVERY_PACKETS
  {
    && bytes == OfferBytes(offer, ps, sequenced) && |offer| < 0x1_0000 && Numbers(ps, sequenced)
    && sec.open(RequestOf(sec, q), offer) == Some(Digests(sec, ps))
  }

  /** Verifying, exactly: packets are offered if and only if the query is formed, the
      reply is within the bound and holds a signed offer of exactly these packets,
      at most 32, each fitting the query, with differing ids and rising numbers. */
  lemma VerifiesExactly(sec: Security, q: RangeQuery, bytes: seq<byte>, ps: seq<Recovered>)
    ensures Verify(sec, q, bytes) == Ok(Offered(ps)) <==>
              && Formed(q) && |bytes| <= MAX_REPLY_BYTES && |ps| <= MAX_RECOVERY_PACKETS && Acceptable(q, ps)
              && exists offer, sequenced :: OfferHolds(sec, q, bytes, ps, offer, sequenced)
  {
    hide Acceptable, Formed, OfferHolds, Verify;
    if Verify(sec, q, bytes) == Ok(Offered(ps)) { var offer, sequenced := OfferedHolds(sec, q, bytes, ps); }
    if |ps| <= MAX_RECOVERY_PACKETS {
      if offer, sequenced :| OfferHolds(sec, q, bytes, ps, offer, sequenced) {
        if Formed(q) && |bytes| <= MAX_REPLY_BYTES && Acceptable(q, ps) { HeldIsOffered(sec, q, bytes, ps, offer, sequenced); }
      }
    }
  }

  lemma OfferedHolds(sec: Security, q: RangeQuery, bytes: seq<byte>, ps: seq<Recovered>) returns (offer: seq<byte>, sequenced: bool)
    requires Verify(sec, q, bytes) == Ok(Offered(ps))
    ensures Formed(q) && |bytes| <= MAX_REPLY_BYTES && |ps| <= MAX_RECOVERY_PACKETS && Acceptable(q, ps) && OfferHolds(sec, q, bytes, ps, offer, sequenced)
  {
    hide ReadFraming, ReadPackets, RequestOf, Digests, Acceptable, Formed, Numbers, Tracks, U16Bytes, Format, PacketsBytes;
    FramingWas(q, bytes);
    var Framing(numbered, signed, count, rest) := ReadFraming(q, bytes).value;
    offer, sequenced := signed, numbered;
    BeginTracks(q, rest);
    NothingNumbered(sequenced);
    var read := PacketsWere(Begin(q, rest), q, sequenced, count);
    assert [] + read == read;
  }

  lemma NothingNumbered(sequenced: bool)
    ensures Numbers([], sequenced)
  {
  }

  lemma HeldIsOffered(sec: Security, q: RangeQuery, bytes: seq<byte>, ps: seq<Recovered>, offer: seq<byte>, sequenced: bool)
    requires Formed(q) && |bytes| <= MAX_REPLY_BYTES && |ps| <= MAX_RECOVERY_PACKETS && Acceptable(q, ps) && OfferHolds(sec, q, bytes, ps, offer, sequenced)
    ensures Verify(sec, q, bytes) == Ok(Offered(ps))
  {
    hide ReadFraming, ReadPackets, RequestOf, Digests, Acceptable, Formed, Numbers, Tracks, OfferBytes, PacketsBytes;
    FramingRead(q, offer, ps, sequenced);
    BeginTracks(q, PacketsBytes(ps, sequenced));
    assert ps[..0] == [] && ps[0..] == ps;
    var end := PacketsRead(Begin(q, PacketsBytes(ps, sequenced)), q, ps, sequenced, 0);
  }

  /** A refusal is reported exactly for a formed query and a reply that is, after
      either format, that refusal's status and nothing more. */
  lemma DeclinesExactly(sec: Security, q: RangeQuery, bytes: seq<byte>, e: Rejection)
    ensures Verify(sec, q, bytes) == Ok(Declined(e)) <==> Formed(q) && exists sequenced :: bytes == Format(sequenced) + [StatusOf(e)]
  {
    hide ReadPackets, RequestOf, Digests, ReadFraming, Formed, Format;
    if Verify(sec, q, bytes) == Ok(Declined(e)) { FramingWas(q, bytes); }
    if sequenced :| bytes == Format(sequenced) + [StatusOf(e)] { if Formed(q) { StatusRead(q, e, sequenced); } }
  }

  lemma StatusRead(q: RangeQuery, e: Rejection, sequenced: bool)
    requires Formed(q)
    ensures ReadFraming(q, Format(sequenced) + [StatusOf(e)]) == Ok(Status(e))
  {
    TakeWritten(Format(sequenced), [StatusOf(e)]);
    ByteWritten(StatusOf(e), []);
    assert [StatusOf(e)] + [] == [StatusOf(e)];
    hide Take, TakeByte, TakeU16;
  }

  /** The window an honest index selects is servable. */
  lemma WindowServable(log: Log, past: seq<Record>, q: RangeQuery)
    requires Faithful(log, past) && q.workspace == log.workspace && q.through <= |past| && Intact(log, q.after, q.topics)
    ensures Servable(Window(past, q.topics, q.after, q.through), q)
  {
    hide Pick, Accounted, TopicFaithful;
    var rs := Window(past, q.topics, q.after, q.through);
    PickAscends(past[..q.through], q.topics, q.after);
    forall i | 0 <= i < |rs| ensures rs[i] in past && q.after < rs[i].sequence <= q.through && rs[i].context.topic in q.topics
                                     && past[rs[i].sequence - 1] == rs[i] && Kept(log, rs[i])
    {
      PickMember(past[..q.through], q.topics, q.after, rs[i]);
    }
    assert StrictlyBy(BySequence(), rs);
    forall i, j | 0 <= i < j < |rs| ensures rs[i].context.id != rs[j].context.id {
      assert BySequence()(rs[i]) < BySequence()(rs[j]);
      assert Kept(log, past[rs[i].sequence - 1]) && Kept(log, past[rs[j].sequence - 1]);
    }
  }

  /** What the server answers from is the window of the whole past. */
  lemma ServedWindow(sec: Security, log: Log, past: seq<Record>, authorized: bool, q: RangeQuery)
    requires Faithful(log, past)
    ensures var s := Serve(sec, log, authorized, q);
            s.Ok? && s.value.Offers? ==>
              && q.author == log.author && q.workspace == log.workspace && q.epoch == log.epoch
              && q.after < q.through <= |past| && 0 < |q.topics| <= MAX_TOPICS
              && s.value.packets == Carried(Window(past, q.topics, q.after, q.through)) && |s.value.packets| <= MAX_RECOVERY_PACKETS
              && Servable(Window(past, q.topics, q.after, q.through), q)
              && s.value.offer == sec.sign(RequestOf(sec, q), Digests(sec, s.value.packets))
              && 9 + |s.value.offer| + PacketsSize(s.value.packets, Sequenced(s.value.packets)) <= MAX_REPLY_BYTES
  {
    hide Faithful, Select, Window, Digests, Servable, PacketsSize, RequestOf, NoRepeats, Sequenced;
    FaithfulNumbered(log, past);
    SelectExactly(log, past, q.after, q.through, q.topics);
    if Select(log, q.after, q.through, q.topics).Found? && q.workspace == log.workspace { WindowServable(log, past, q); }
  }

  /** An honest exchange: what the index serves, any reader of the same query
      verifies as exactly the publications of the window, in order. */
  lemma ServedIsVerified(sec: Security, log: Log, past: seq<Record>, authorized: bool, q: RangeQuery)
    requires Faithful(log, past)
    requires Serve(sec, log, authorized, q).Ok? && Serve(sec, log, authorized, q).value.Offers? && OfferOpens(sec, q, Serve(sec, log, authorized, q).value.packets)
    ensures q.through <= |past| && |Serve(sec, log, authorized, q).value.packets| <= MAX_RECOVERY_PACKETS
    ensures Verify(sec, q, ServedBytes(Serve(sec, log, authorized, q).value)) == Ok(Offered(Carried(Window(past, q.topics, q.after, q.through))))
  {
    hide Faithful, Serve, Window, Digests, Servable, Verify, RequestOf, OfferBytes, Sequenced, PacketsSize, Acceptable;
    ServedWindow(sec, log, past, authorized, q);
    var rs := Window(past, q.topics, q.after, q.through);
    var ps := Carried(rs);
    var offer := Serve(sec, log, authorized, q).value.offer;
    ReplySize(offer, ps);
    ServableAcceptable(rs, q);
    HeldIsOffered(sec, q, ReplyBytes(offer, ps), ps, offer, Sequenced(ps));
  }

  lemma ServableAcceptable(rs: seq<Record>, q: RangeQuery)
    requires Servable(rs, q)
    ensures Acceptable(q, Carried(rs))
  {
    var ps := Carried(rs);
    forall p | p in ps ensures Fitting(q, p) { var i :| 0 <= i < |rs| && ps[i] == p; }
    forall i, j | 0 <= i < j < |ps| && ps[i].context.sequence.Some? && ps[j].context.sequence.Some?
      ensures ps[i].context.sequence.value < ps[j].context.sequence.value
    {
      assert BySequence()(rs[i]) < BySequence()(rs[j]);
    }
  }

  lemma ReplySize(offer: seq<byte>, ps: seq<Recovered>)
    requires |ps| <= MAX_RECOVERY_PACKETS
    ensures |ReplyBytes(offer, ps)| == 9 + |offer| + PacketsSize(ps, Sequenced(ps))
  {
    hide Sequenced;
    PacketsSizeIs(ps, Sequenced(ps));
  }

  /** A refusal is read back with its own reason. */
  lemma DeclineReadBack(sec: Security, q: RangeQuery, e: Rejection)
    requires q.after < q.through && 0 < |q.topics| <= MAX_TOPICS
    ensures Verify(sec, q, Rejected(e)) == Ok(Declined(e))
  {
    hide Verify;
    DeclinesExactly(sec, q, Rejected(e), e);
    assert Rejected(e) == Format(false) + [StatusOf(e)];
  }

  /** The request is from a reader the policy admits, for this very index. */
  predicate Admits(log: Log, authorized: bool, q: RangeQuery) {
    authorized && q.workspace == log.workspace && q.author == log.author && q.epoch == log.epoch
  }

  /** The window of the past as a reply, with its offer, is within the bound. */
  ghost predicate ReplyFits(sec: Security, past: seq<Record>, q: RangeQuery)
    requires q.through <= |past|
  {
    var ps := Carried(Window(past, q.topics, q.after, q.through));
    9 + |sec.sign(RequestOf(sec, q), Digests(sec, ps))| + PacketsSize(ps, Sequenced(ps)) <= MAX_REPLY_BYTES
  }

  /** What is answered, exactly. Who is not admitted is denied, and nobody else is.
      An offer is made exactly for an admitted, well-formed request whose topics
      lost nothing above its start, with at most 32 records and a reply within
      the bound; it is that window. Any other refusal names a reason that applies. */
  lemma ServeExactly(sec: Security, log: Log, past: seq<Record>, authorized: bool, q: RangeQuery)
    requires Faithful(log, past) && CollisionFree(sec)
    ensures var s := Serve(sec, log, authorized, q);
            var formed := q.after < q.through <= log.head && 0 < |q.topics| <= MAX_TOPICS;
            && s.Ok? && |past| == log.head
            && (s.value == Declines(Denied) <==> !Admits(log, authorized, q))
            && (s.value.Offers? <==>
                  && Admits(log, authorized, q) && formed && Intact(log, q.after, q.topics)
                  && |Window(past, q.topics, q.after, q.through)| <= MAX_RECOVERY_PACKETS && ReplyFits(sec, past, q))
            && (s.value.Offers? ==> s.value.packets == Carried(Window(past, q.topics, q.after, q.through)))
            && (s.value == Declines(OfHistory(Invalid)) <==> Admits(log, authorized, q) && !formed)
            && (s.value == Declines(OfHistory(Unavailable)) ==> formed && !Intact(log, q.after, q.topics))
            && (s.value == Declines(OfHistory(TooLarge)) ==>
                  formed && (|Window(past, q.topics, q.after, q.through)| > MAX_RECOVERY_PACKETS || !ReplyFits(sec, past, q)))
            && s.value != Declines(OfHistory(Empty))
  {
    hide Faithful, Select, Window, Digests, PacketsSize, RequestOf, NoRepeats, Sequenced, Intact, CollisionFree;
    FaithfulNumbered(log, past);
    ServeNeverFails(sec, log, past, authorized, q);
    SelectExactly(log, past, q.after, q.through, q.topics);
    if Select(log, q.after, q.through, q.topics).Refused? { SelectRefusal(log, past, q.after, q.through, q.topics); }
  }

  /** With a collision-free hash the server never meets a repeated digest. */
  lemma ServeNeverFails(sec: Security, log: Log, past: seq<Record>, authorized: bool, q: RangeQuery)
    requires Faithful(log, past) && CollisionFree(sec)
    ensures Serve(sec, log, authorized, q).Ok?
  {
    hide Faithful, Select, Window, RequestOf, PacketsSize, Sequenced, Framed;
    FaithfulNumbered(log, past);
    SelectExactly(log, past, q.after, q.through, q.topics);
    if q.workspace == log.workspace && Select(log, q.after, q.through, q.topics).Found? {
      WindowServable(log, past, q);
      var rs := Window(past, q.topics, q.after, q.through);
      forall i, j | 0 <= i < j < |rs| ensures Digests(sec, Carried(rs))[i] != Digests(sec, Carried(rs))[j] {
        if Framed(PACKET_DOMAIN, rs[i].context, rs[i].ciphertext) == Framed(PACKET_DOMAIN, rs[j].context, rs[j].ciphertext) {
          FramedInjective(PACKET_DOMAIN, rs[i].context, rs[i].ciphertext, rs[j].context, rs[j].ciphertext);
        }
      }
    }
  }
}
