/** The retention snapshot: its bytes, the validating reader, and the saving of
    a narrowed index beside an inbox. Models `snapshot` and `restore` of
    crates/arachne-delivery/src/lib.rs and `snapshot_with_publisher` of
    crates/arachne-delivery/src/inbox.rs. */
module Snapshot {
  import opened Bytes
  import opened Ordering
  import opened Publication
  import opened Retention
  import opened Selection

  const MAGIC: seq<byte> := [68, 70, 82, 76, 1]
  const SEQUENCED_MAGIC: seq<byte> := [68, 70, 82, 76, 2]
  const MAX_SNAPSHOT_BYTES: nat := MAX_RETAINED_BYTES + 16 * 1024
  const MAX_WORKSPACE_ATTACHMENT: nat := 528 * 1024

  // ------------------------------------------------------------------- writing

  predicate AnySequenced(topics: map<Topic, History>) {
    exists t :: t in topics && exists r :: r in topics[t].records && r.context.sequence.Some?
  }

  function Mark(r: Record, sequenced: bool): (b: seq<byte>)
    ensures |b| == if sequenced then 1 else 0
  {
    if sequenced then [if r.context.sequence.Some? then 1 else 0] else []
  }

  function RecordBytes(r: Record, sequenced: bool, rest: seq<byte>): seq<byte> {
    U64Bytes(r.sequence) + (Mark(r, sequenced) + (U64Bytes(r.context.revision) + (r.context.id
      + (U32Bytes(|r.ciphertext|) + (r.ciphertext + rest)))))
  }

  function RecordsBytes(rs: seq<Record>, sequenced: bool, rest: seq<byte>): seq<byte> {
    if rs == [] then rest else RecordBytes(rs[0], sequenced, RecordsBytes(rs[1..], sequenced, rest))
  }

  function HistoryBytes(t: Topic, held: History, sequenced: bool, rest: seq<byte>): seq<byte> {
    TopicBytes(t) + (U64Bytes(held.evictedThrough) + (U16Bytes(|held.records|) + RecordsBytes(held.records, sequenced, rest)))
  }

  function TopicsBytes(keys: seq<Topic>, topics: map<Topic, History>, sequenced: bool): seq<byte>
    requires forall t :: t in keys ==> t in topics
  {
    if keys == [] then [] else HistoryBytes(keys[0], topics[keys[0]], sequenced, TopicsBytes(keys[1..], topics, sequenced))
  }

  function Magic(sequenced: bool): (b: seq<byte>)
    ensures |b| == 5
  {
    if sequenced then SEQUENCED_MAGIC else MAGIC
  }

  /** An index under either of the two forms; only the second marks each record. */
  function Written(log: Log, sequenced: bool): seq<byte> {
    Magic(sequenced) + (log.workspace + (log.author + (U64Bytes(log.epoch) + (U64Bytes(log.head)
      + (U16Bytes(|log.topics|) + TopicsBytes(Listed(log.topics.Keys), log.topics, sequenced))))))
  }

  /** `snapshot`. */
  function Encode(log: Log): seq<byte> { Written(log, AnySequenced(log.topics)) }

  // ------------------------------------------------------------------- reading

  datatype Scope = Scope(workspace: Id32, head: u64, sequenced: bool)

  /** Where the reader stands: what is left of the input, and what it gathered. */
  datatype Reader = Reader(input: seq<byte>, topics: map<Topic, History>, bytes: nat, previous: Option<Topic>,
                           sequences: set<u64>, ids: set<Id16>, highest: u64)

  function Last(held: History): u64 {
    if held.records == [] then held.evictedThrough else held.records[|held.records| - 1].sequence
  }

  function ReadMark(sequence: u64, sequenced: bool, input: seq<byte>): Result<Read<Option<nonzero>>> {
    if !sequenced then Ok(Read(None, input)) else
    var mark :- TakeByte(input);
    if mark.value == 0 then Ok(Read(None, mark.rest))
    else if mark.value != 1 then Err(InvalidMarker)
    else if sequence == 0 then Err(ZeroSequence)
    else Ok(Read(Some(sequence), mark.rest))
  }

  function ReadRecord(at: Reader, scope: Scope, t: Topic, held: History): Result<(Reader, History)> {
    var sequence :- TakeU64(at.input);
    var mark :- ReadMark(sequence.value, scope.sequenced, sequence.rest);
    var revision :- TakeU64(mark.rest);
    var id :- Take(revision.rest, 16);
    var length :- TakeU32(id.rest);
    if sequence.value <= Last(held) || sequence.value > scope.head || sequence.value in at.sequences
       || id.value in at.ids || length.value == 0 || length.value > MAX_APPLICATION_CIPHERTEXT then Err(InvalidPacket)
    else
      var body :- Take(length.rest, length.value);
      var r := Record(sequence.value, Context(scope.workspace, revision.value, t, id.value, mark.value), body.value);
      if at.bytes + Weight(r) > MAX_RETAINED_BYTES then Err(BytesLimit) else
      Ok((at.(input := body.rest, bytes := at.bytes + Weight(r), sequences := at.sequences + {r.sequence},
              ids := at.ids + {r.context.id}, highest := Max(at.highest, r.sequence)),
          held.(records := held.records + [r])))
  }

  function ReadRecords(at: Reader, scope: Scope, t: Topic, held: History, count: nat): Result<(Reader, History)>
    decreases count
  {
    if count == 0 then Ok((at, held)) else
    var next :- ReadRecord(at, scope, t, held);
    ReadRecords(next.0, scope, t, next.1, count - 1)
  }

  /** The front of one topic: its name, watermark and record count. */
  function ReadFront(at: Reader, scope: Scope): Result<(Reader, Topic, u64, nat)> {
    var topic :- TakeTopic(at.input);
    if at.previous.Some? && !Less(at.previous.value, topic.value) then Err(Noncanonical) else
    var evicted :- TakeU64(topic.rest);
    if evicted.value > scope.head || (evicted.value != 0 && evicted.value in at.sequences) then Err(InvalidWatermark) else
    var count :- TakeU16(evicted.rest);
    if count.value > MAX_PACKETS_PER_TOPIC then Err(PacketLimit) else
    Ok((at.(input := count.rest, previous := Some(topic.value), highest := Max(at.highest, evicted.value),
            sequences := at.sequences + if evicted.value != 0 then {evicted.value} else {}),
        topic.value, evicted.value, count.value))
  }

  function ReadTopic(at: Reader, scope: Scope): Result<Reader> {
    var front :- ReadFront(at, scope);
    var (begun, t, evicted, count) := front;
    var done :- ReadRecords(begun, scope, t, History(evicted, []), count);
    if done.1.records == [] && evicted == 0 then Err(UnobservedTopic) else
    Ok(done.0.(topics := done.0.topics[t := done.1]))
  }

  function ReadTopics(at: Reader, scope: Scope, count: nat): Result<Reader>
    decreases count
  {
    if count == 0 then Ok(at) else
    var next :- ReadTopic(at, scope);
    ReadTopics(next, scope, count - 1)
  }

  /** The fixed front of a snapshot, down to the number of topics. */
  function ReadHeader(workspace: Id32, author: Id32, epoch: u64, bytes: seq<byte>): Result<(Scope, nat, seq<byte>)> {
    if |bytes| > MAX_SNAPSHOT_BYTES then Err(ExceedsBound) else
    var magic :- Take(bytes, 5);
    if magic.value != MAGIC && magic.value != SEQUENCED_MAGIC then Err(WrongScope) else
    var inWorkspace :- Take(magic.rest, 32);
    if inWorkspace.value != workspace then Err(WrongScope) else
    var byAuthor :- Take(inWorkspace.rest, 32);
    if byAuthor.value != author then Err(WrongScope) else
    var atEpoch :- TakeU64(byAuthor.rest);
    if atEpoch.value != epoch then Err(WrongScope) else
    var head :- TakeU64(atEpoch.rest);
    var count :- TakeU16(head.rest);
    if count.value > MAX_TOPICS then Err(TopicLimit) else
    Ok((Scope(workspace, head.value, magic.value == SEQUENCED_MAGIC), count.value, count.rest))
  }

  function Start(input: seq<byte>): Reader {
    Reader(input, map[], 0, None, {}, {}, 0)
  }

  /** `restore`. */
  function Decode(workspace: Id32, author: Id32, epoch: u64, bytes: seq<byte>): Result<Log> {
    var (scope, count, input) :- ReadHeader(workspace, author, epoch, bytes);
    var done :- ReadTopics(Start(input), scope, count);
    if done.input != [] || done.highest != scope.head then Err(InvalidHead) else
    Ok(Log(workspace, author, epoch, scope.head, done.bytes, done.topics))
  }

  // ---------------------------------------------------------------- size bound

  lemma {:induction false} RecordsSize(rs: seq<Record>, sequenced: bool, rest: seq<byte>)
    ensures |RecordsBytes(rs, sequenced, rest)| <= Weights(rs) + |rest|
  {
    if rs != [] { RecordsSize(rs[1..], sequenced, rest); }
  }

  ghost function ListedWeight(keys: seq<Topic>, topics: map<Topic, History>): nat
    requires forall t :: t in keys ==> t in topics
  {
    if keys == [] then 0 else Weights(topics[keys[0]].records) + ListedWeight(keys[1..], topics)
  }

  lemma {:induction false} ListedWeightIs(keys: seq<Topic>, topics: map<Topic, History>, loads: map<Topic, nat>)
    requires Distinct(keys) && Elements(keys) == loads.Keys && loads.Keys <= topics.Keys
    requires forall t :: t in loads ==> loads[t] == Weights(topics[t].records)
    ensures ListedWeight(keys, topics) == MapSum(loads)
  {
    hide Weights, MapSum;
    if keys == [] {
      NothingSums(loads);
    } else {
      MapSumTake(loads, keys[0]);
      assert keys == [keys[0]] + keys[1..];
      assert Elements(keys[1..]) == (loads - {keys[0]}).Keys;
      ListedWeightIs(keys[1..], topics, loads - {keys[0]});
    }
  }

  lemma NothingSums(loads: map<Topic, nat>)
    requires loads.Keys == {}
    ensures MapSum(loads) == 0
  {
    assert loads == map[];
  }

  lemma HeldWeightListed(topics: map<Topic, History>)
    ensures ListedWeight(Listed(topics.Keys), topics) == HeldWeight(topics)
  {
    hide Listed, Distinct, Elements, Weights, MapSum;
    ListedDistinct(topics.Keys);
    ListedWeightIs(Listed(topics.Keys), topics, Loads(topics));
  }

  lemma {:induction false} TopicsSize(keys: seq<Topic>, topics: map<Topic, History>, sequenced: bool)
    requires forall t :: t in keys ==> t in topics
    ensures |TopicsBytes(keys, topics, sequenced)| <= ListedWeight(keys, topics) + 139 * |keys|
  {
    if keys != [] {
      TopicsSize(keys[1..], topics, sequenced);
      RecordsSize(topics[keys[0]].records, sequenced, TopicsBytes(keys[1..], topics, sequenced));
    }
  }

  /** Real size bound: every reachable snapshot fits its declared maximum. */
  lemma SnapshotFits(log: Log, past: seq<Record>)
    requires Reached(log, past)
    ensures |Encode(log)| <= MAX_SNAPSHOT_BYTES
  {
    TopicsSize(Listed(log.topics.Keys), log.topics, AnySequenced(log.topics));
    HeldWeightListed(log.topics);
  }

  // ------------------------------------------------- what restoring validates

  /** A number a topic accounts for: its watermark, or a record's. */
  predicate Bears(held: History, n: u64) { (n != 0 && held.evictedThrough == n) || exists r :: r in held.records && r.sequence == n }

  predicate BearsId(held: History, id: Id16) { exists r :: r in held.records && r.context.id == id }

  predicate HasNumber(topics: map<Topic, History>, n: u64) { exists t :: t in topics && Bears(topics[t], n) }

  predicate HasId(topics: map<Topic, History>, id: Id16) { exists t :: t in topics && BearsId(topics[t], id) }

  /** Records rise above the watermark, up to the head. */
  predicate Rising(held: History, head: u64) {
    && held.evictedThrough <= head
    && (forall i, j :: 0 <= i < j < |held.records| ==> held.records[i].sequence < held.records[j].sequence)
    && (forall r :: r in held.records ==> held.evictedThrough < r.sequence <= head)
  }

  predicate Belongs(held: History, t: Topic, workspace: Id32) {
    forall r :: r in held.records ==> Admissible(workspace, r) && r.context.topic == t
  }

  /** No number belongs to two topics. */
  ghost predicate OneNumber(topics: map<Topic, History>) {
    forall t, u, n :: t in topics && u in topics && Bears(topics[t], n) && Bears(topics[u], n) ==> t == u
  }

  /** No id belongs to two records. */
  predicate OneId(topics: map<Topic, History>) {
    forall t, u, i, j :: t in topics && u in topics && 0 <= i < |topics[t].records| && 0 <= j < |topics[u].records| ==>
      (topics[t].records[i].context.id == topics[u].records[j].context.id ==> t == u && i == j)
  }

  ghost predicate Coherent(topics: map<Topic, History>, workspace: Id32, head: u64) {
    && (forall t :: t in topics ==> Rising(topics[t], head) && Belongs(topics[t], t, workspace))
    && OneNumber(topics) && OneId(topics)
  }

  /** No topic is empty without a watermark, or holds too many records. */
  predicate Complete(topics: map<Topic, History>) {
    forall t :: t in topics ==> (topics[t].evictedThrough != 0 || topics[t].records != []) && |topics[t].records| <= MAX_PACKETS_PER_TOPIC
  }

  /** What an index must be to be restored. */
  ghost predicate Restorable(log: Log) {
    && |log.topics| <= MAX_TOPICS && Complete(log.topics) && Coherent(log.topics, log.workspace, log.head)
    && (log.head == 0 || HasNumber(log.topics, log.head))
    && log.bytes == HeldWeight(log.topics) <= MAX_RETAINED_BYTES
  }

  predicate Marked(topics: map<Topic, History>, sequenced: bool) { AnySequenced(topics) ==> sequenced }

  // ----------------------------------------------- what the reader has gathered

  /** The reader's sets, counters and bounds speak of exactly these topics. */
  ghost predicate Gathers(at: Reader, topics: map<Topic, History>, scope: Scope) {
    && (forall n :: n in at.sequences <==> HasNumber(topics, n))
    && (forall id :: id in at.ids <==> HasId(topics, id))
    && (forall n :: n in at.sequences ==> n <= at.highest) && (at.highest == 0 || at.highest in at.sequences)
    && at.bytes == HeldWeight(topics) <= MAX_RETAINED_BYTES
    && Coherent(topics, scope.workspace, scope.head) && Marked(topics, scope.sequenced)
  }

  /** A record the reader may add to a topic. */
  predicate Fresh(at: Reader, scope: Scope, t: Topic, held: History, r: Record) {
    && Admissible(scope.workspace, r) && r.context.topic == t && (r.context.sequence.Some? ==> scope.sequenced)
    && Last(held) < r.sequence <= scope.head && r.sequence !in at.sequences && r.context.id !in at.ids
    && at.bytes + Weight(r) <= MAX_RETAINED_BYTES
  }

  function Extended(held: History, r: Record): History { held.(records := held.records + [r]) }

  /** Where the reader stands after a record. */
  function Beyond(at: Reader, r: Record, rest: seq<byte>): Reader {
    at.(input := rest, bytes := at.bytes + Weight(r), sequences := at.sequences + {r.sequence},
        ids := at.ids + {r.context.id}, highest := Max(at.highest, r.sequence))
  }

  /** One written record is read back as itself when nothing forbids it. */
  lemma RecordRead(at: Reader, scope: Scope, t: Topic, held: History, r: Record, rest: seq<byte>)
    requires Fresh(at, scope, t, held, r) && at.input == RecordBytes(r, scope.sequenced, rest)
    ensures ReadRecord(at, scope, t, held) == Ok((Beyond(at, r, rest), Extended(held, r)))
  {
    hide Weight, U64Bytes, U32Bytes, Take, TakeU64, TakeU32, TakeByte, Last;
    var body := r.ciphertext + rest;
    var length := U32Bytes(|r.ciphertext|) + body;
    var id := r.context.id + length;
    var revision := U64Bytes(r.context.revision) + id;
    U64Written(r.sequence, Mark(r, scope.sequenced) + revision);
    if scope.sequenced { ByteWritten(Mark(r, true)[0], revision); } else { assert [] + revision == revision; }
    U64Written(r.context.revision, id);
    TakeWritten(r.context.id, length);
    U32Written(|r.ciphertext|, body);
    TakeWritten(r.ciphertext, rest);
  }

  /** Whatever is read as a record was written as that record, and was allowed. */
  lemma RecordWas(at: Reader, scope: Scope, t: Topic, held: History) returns (r: Record)
    requires ReadRecord(at, scope, t, held).Ok? && at.bytes <= MAX_RETAINED_BYTES
    ensures var next := ReadRecord(at, scope, t, held).value;
            && Fresh(at, scope, t, held, r) && at.input == RecordBytes(r, scope.sequenced, next.0.input)
            && next == (Beyond(at, r, next.0.input), Extended(held, r))
  {
    hide Weight, U64Bytes, U32Bytes, Take, TakeU64, TakeU32, TakeByte, Last;
    var next := ReadRecord(at, scope, t, held).value;
    r := next.1.records[|held.records|];
    var sequence := TakeU64(at.input).value;
    var mark := ReadMark(sequence.value, scope.sequenced, sequence.rest).value;
    MarkWas(sequence.value, scope.sequenced, sequence.rest, r);
  }

  lemma MarkWas(sequence: u64, sequenced: bool, input: seq<byte>, r: Record)
    requires ReadMark(sequence, sequenced, input).Ok? && r.context.sequence == ReadMark(sequence, sequenced, input).value.value
    ensures input == Mark(r, sequenced) + ReadMark(sequence, sequenced, input).value.rest
  {
    hide TakeByte;
    if !sequenced { assert [] + input == input; }
  }

  // One record more.

  lemma BearsMore(held: History, r: Record, n: u64, id: Id16)
    ensures Bears(Extended(held, r), n) <==> Bears(held, n) || n == r.sequence
    ensures BearsId(Extended(held, r), id) <==> BearsId(held, id) || id == r.context.id
  {
    var more := Extended(held, r);
    assert forall x :: x in more.records <==> x in held.records || x == r;
    assert r in more.records;
    if y :| y in held.records && y.sequence == n { assert y in more.records; }
    if y :| y in held.records && y.context.id == id { assert y in more.records; }
  }

  lemma HasMoreNumber(topics: map<Topic, History>, t: Topic, r: Record, n: u64)
    requires t in topics
    ensures HasNumber(topics[t := Extended(topics[t], r)], n) <==> HasNumber(topics, n) || n == r.sequence
  {
    hide Bears;
    BearsMore(topics[t], r, n, r.context.id);
    var next := topics[t := Extended(topics[t], r)];
    if u :| u in topics && Bears(topics[u], n) { assert u in next && Bears(next[u], n); }
    if n == r.sequence { assert Bears(next[t], n); }
  }

  lemma HasMoreId(topics: map<Topic, History>, t: Topic, r: Record, id: Id16)
    requires t in topics
    ensures HasId(topics[t := Extended(topics[t], r)], id) <==> HasId(topics, id) || id == r.context.id
  {
    hide BearsId;
    BearsMore(topics[t], r, r.sequence, id);
    var next := topics[t := Extended(topics[t], r)];
    if u :| u in topics && BearsId(topics[u], id) { assert u in next && BearsId(next[u], id); }
    if id == r.context.id { assert BearsId(next[t], id); }
  }

  lemma RisingMore(held: History, r: Record, head: u64)
    requires Rising(held, head) && Last(held) < r.sequence <= head
    ensures Rising(Extended(held, r), head)
  {
    var more := Extended(held, r);
    if held.records != [] { assert held.records[|held.records| - 1] in held.records; }
    forall i, j | 0 <= i < j < |more.records| ensures more.records[i].sequence < more.records[j].sequence {
      if j == |held.records| && i < |held.records| - 1 { assert held.records[i].sequence < held.records[|held.records| - 1].sequence; }
    }
  }

  lemma OneNumberMore(topics: map<Topic, History>, t: Topic, r: Record)
    requires t in topics && OneNumber(topics) && !HasNumber(topics, r.sequence)
    ensures OneNumber(topics[t := Extended(topics[t], r)])
  {
    hide Bears;
    var next := topics[t := Extended(topics[t], r)];
    forall u, v, n | u in next && v in next && Bears(next[u], n) && Bears(next[v], n) ensures u == v {
      BearsMore(topics[t], r, n, r.context.id);
      assert n != r.sequence ==> Bears(topics[u], n) && Bears(topics[v], n);
    }
  }

  lemma OneIdMore(topics: map<Topic, History>, t: Topic, r: Record)
    requires t in topics && OneId(topics) && !HasId(topics, r.context.id)
    ensures OneId(topics[t := Extended(topics[t], r)])
  {
    var next := topics[t := Extended(topics[t], r)];
    forall u, i | u in topics && 0 <= i < |topics[u].records| ensures topics[u].records[i].context.id != r.context.id {
      assert topics[u].records[i] in topics[u].records;
      assert BearsId(topics[u], topics[u].records[i].context.id);
    }
  }

  lemma CoherentMore(topics: map<Topic, History>, t: Topic, r: Record, workspace: Id32, head: u64)
    requires t in topics && Coherent(topics, workspace, head) && Admissible(workspace, r) && r.context.topic == t
    requires Last(topics[t]) < r.sequence <= head && !HasNumber(topics, r.sequence) && !HasId(topics, r.context.id)
    ensures Coherent(topics[t := Extended(topics[t], r)], workspace, head)
  {
    hide Rising, OneNumber, OneId, HasNumber, HasId, Admissible, Last;
    RisingMore(topics[t], r, head);
    OneNumberMore(topics, t, r);
    OneIdMore(topics, t, r);
  }

  lemma MarkedMore(topics: map<Topic, History>, t: Topic, r: Record, sequenced: bool)
    requires t in topics && Marked(topics, sequenced) && (r.context.sequence.Some? ==> sequenced)
    ensures Marked(topics[t := Extended(topics[t], r)], sequenced)
  {
    var next := topics[t := Extended(topics[t], r)];
    if AnySequenced(next) && r.context.sequence.None? {
      var u :| u in next && exists x :: x in next[u].records && x.context.sequence.Some?;
      var x :| x in next[u].records && x.context.sequence.Some?;
      assert u in topics && x in topics[u].records;
    }
  }

  /** Reading an allowed record keeps the account. */
  lemma RecordGathers(at: Reader, topics: map<Topic, History>, scope: Scope, t: Topic, r: Record, rest: seq<byte>)
    requires t in topics && Gathers(at, topics, scope) && Fresh(at, scope, t, topics[t], r)
    ensures Gathers(Beyond(at, r, rest), topics[t := Extended(topics[t], r)], scope)
  {
    hide Coherent, Marked, HasNumber, HasId, HeldWeight, Weight, Weights, Admissible, Last;
    var next := topics[t := Extended(topics[t], r)];
    CoherentMore(topics, t, r, scope.workspace, scope.head);
    MarkedMore(topics, t, r, scope.sequenced);
    HeldWeightUpdate(topics, t, Extended(topics[t], r));
    WeightsAppend(topics[t].records, r);
    forall n ensures HasNumber(next, n) <==> HasNumber(topics, n) || n == r.sequence { HasMoreNumber(topics, t, r, n); }
    forall id ensures HasId(next, id) <==> HasId(topics, id) || id == r.context.id { HasMoreId(topics, t, r, id); }
  }

  // One topic more.

  function Opening(at: Reader, t: Topic, evicted: u64, rest: seq<byte>): Reader {
    at.(input := rest, previous := Some(t), highest := Max(at.highest, evicted),
        sequences := at.sequences + if evicted != 0 then {evicted} else {})
  }

  lemma FrontRead(at: Reader, scope: Scope, t: Topic, held: History, rest: seq<byte>)
    requires at.input == TopicBytes(t) + (U64Bytes(held.evictedThrough) + (U16Bytes(|held.records|) + rest))
    requires at.previous.Some? ==> Less(at.previous.value, t)
    requires held.evictedThrough <= scope.head && (held.evictedThrough != 0 ==> held.evictedThrough !in at.sequences)
    requires |held.records| <= MAX_PACKETS_PER_TOPIC
    ensures ReadFront(at, scope) == Ok((Opening(at, t, held.evictedThrough, rest), t, held.evictedThrough, |held.records|))
  {
    hide U64Bytes, U16Bytes, TopicBytes, TakeU64, TakeU16, TakeTopic, Less;
    TopicWritten(t, U64Bytes(held.evictedThrough) + (U16Bytes(|held.records|) + rest));
    U64Written(held.evictedThrough, U16Bytes(|held.records|) + rest);
    U16Written(|held.records|, rest);
  }

  lemma FrontWas(at: Reader, scope: Scope)
    requires ReadFront(at, scope).Ok?
    ensures var (begun, t, evicted, count) := ReadFront(at, scope).value;
            && at.input == TopicBytes(t) + (U64Bytes(evicted) + (U16Bytes(count) + begun.input))
            && (at.previous.Some? ==> Less(at.previous.value, t)) && count <= MAX_PACKETS_PER_TOPIC
            && evicted <= scope.head && (evicted != 0 ==> evicted !in at.sequences)
            && begun == Opening(at, t, evicted, begun.input)
  {
    hide U64Bytes, U16Bytes, TopicBytes, TakeU64, TakeU16, TakeTopic, Less;
  }

  lemma HasFrontNumber(topics: map<Topic, History>, t: Topic, evicted: u64, n: u64)
    requires t !in topics
    ensures HasNumber(topics[t := History(evicted, [])], n) <==> HasNumber(topics, n) || (n != 0 && n == evicted)
  {
    var next := topics[t := History(evicted, [])];
    assert Bears(next[t], n) <==> n != 0 && n == evicted;
    hide Bears;
    if u :| u in topics && Bears(topics[u], n) { assert u in next && Bears(next[u], n); }
  }

  lemma HasFrontId(topics: map<Topic, History>, t: Topic, evicted: u64, id: Id16)
    requires t !in topics
    ensures HasId(topics[t := History(evicted, [])], id) <==> HasId(topics, id)
  {
    var next := topics[t := History(evicted, [])];
    assert !BearsId(next[t], id);
    hide BearsId;
    if u :| u in topics && BearsId(topics[u], id) { assert u in next && BearsId(next[u], id); }
  }

  lemma CoherentFront(topics: map<Topic, History>, t: Topic, evicted: u64, workspace: Id32, head: u64)
    requires t !in topics && Coherent(topics, workspace, head) && evicted <= head && (evicted != 0 ==> !HasNumber(topics, evicted))
    ensures Coherent(topics[t := History(evicted, [])], workspace, head)
  {
    var next := topics[t := History(evicted, [])];
    assert Rising(next[t], head) && Belongs(next[t], t, workspace);
    hide Rising, Belongs;
    assert OneNumber(next) by {
      forall n ensures Bears(next[t], n) <==> n != 0 && n == evicted { }
      hide Bears;
      forall u, v, n | u in next && v in next && Bears(next[u], n) && Bears(next[v], n) ensures u == v {
        assert u != t ==> Bears(topics[u], n);
        assert v != t ==> Bears(topics[v], n);
      }
    }
  }

  lemma MarkedFront(topics: map<Topic, History>, t: Topic, evicted: u64, sequenced: bool)
    requires Marked(topics, sequenced) && t !in topics
    ensures Marked(topics[t := History(evicted, [])], sequenced)
  {
    var next := topics[t := History(evicted, [])];
    if AnySequenced(next) {
      var u :| u in next && exists x :: x in next[u].records && x.context.sequence.Some?;
      assert u in topics;
    }
  }

  lemma FrontGathers(at: Reader, topics: map<Topic, History>, scope: Scope, t: Topic, evicted: u64, rest: seq<byte>)
    requires t !in topics && Gathers(at, topics, scope) && evicted <= scope.head && (evicted != 0 ==> evicted !in at.sequences)
    ensures Gathers(Opening(at, t, evicted, rest), topics[t := History(evicted, [])], scope)
  {
    hide Coherent, Marked, HasNumber, HasId, HeldWeight;
    var next := topics[t := History(evicted, [])];
    CoherentFront(topics, t, evicted, scope.workspace, scope.head);
    MarkedFront(topics, t, evicted, scope.sequenced);
    HeldWeightUpdate(topics, t, History(evicted, []));
    assert Weights([]) == 0;
    forall n ensures HasNumber(next, n) <==> HasNumber(topics, n) || (n != 0 && n == evicted) { HasFrontNumber(topics, t, evicted, n); }
    forall id ensures HasId(next, id) <==> HasId(topics, id) { HasFrontId(topics, t, evicted, id); }
  }

  // ------------------------------------------------------- whatever was read

  lemma GathersSame(at: Reader, next: Reader, topics: map<Topic, History>, scope: Scope)
    requires Gathers(at, topics, scope) && next == at.(input := next.input, topics := next.topics, previous := next.previous)
    ensures Gathers(next, topics, scope) && at.bytes <= MAX_RETAINED_BYTES
  {
  }

  lemma RecordsUnfold(rs: seq<Record>, k: nat, sequenced: bool, rest: seq<byte>)
    requires k < |rs|
    ensures RecordsBytes(rs[k..], sequenced, rest) == RecordBytes(rs[k], sequenced, RecordsBytes(rs[k + 1..], sequenced, rest))
    ensures Weights(rs[k..]) == Weight(rs[k]) + Weights(rs[k + 1..])
  {
    assert rs[k..][1..] == rs[k + 1..];
  }

  /** Records that were read are those that were written. */
  lemma {:induction false} RecordsWere(at: Reader, scope: Scope, topics: map<Topic, History>, t: Topic, count: nat) returns (end: Reader, held: History)
    requires t in topics && Gathers(at, topics, scope) && ReadRecords(at, scope, t, topics[t], count).Ok?
    ensures ReadRecords(at, scope, t, topics[t], count) == Ok((end, held))
    ensures Gathers(end, topics[t := held], scope) && end.topics == at.topics && end.previous == at.previous
    ensures held.evictedThrough == topics[t].evictedThrough && |held.records| == |topics[t].records| + count && topics[t].records <= held.records
    ensures at.input == RecordsBytes(held.records[|topics[t].records|..], scope.sequenced, end.input)
    decreases count
  {
    hide Gathers, ReadRecord, RecordBytes, Fresh, Weight, Weights;
    if count == 0 {
      end, held := at, topics[t];
      assert topics[t := held] == topics;
    } else {
      GathersSame(at, at, topics, scope);
      var r := RecordWas(at, scope, t, topics[t]);
      var next := ReadRecord(at, scope, t, topics[t]).value;
      var more := topics[t := next.1];
      RecordGathers(at, topics, scope, t, r, next.0.input);
      end, held := RecordsWere(next.0, scope, more, t, count - 1);
      assert more[t := held] == topics[t := held];
      assert held.records[|topics[t].records|] == more[t].records[|topics[t].records|] == r;
      RecordsUnfold(held.records, |topics[t].records|, scope.sequenced, end.input);
    }
  }

  /** The reader between two topics: what it has read is coherent and complete,
      and every topic read is at or before the last one. */
  ghost predicate Between(at: Reader, scope: Scope) {
    && Gathers(at, at.topics, scope) && Complete(at.topics)
    && forall u :: u in at.topics ==> at.previous.Some? && (u == at.previous.value || Less(u, at.previous.value))
  }

  lemma TopicIsNew(at: Reader, t: Topic)
    requires forall u :: u in at.topics ==> at.previous.Some? && (u == at.previous.value || Less(u, at.previous.value))
    requires at.previous.Some? ==> Less(at.previous.value, t)
    ensures t !in at.topics && forall u :: u in at.topics ==> Less(u, t)
  {
    LessIsTotalOrder();
    hide Less;
  }

  lemma TopicWas(at: Reader, scope: Scope) returns (next: Reader, t: Topic)
    requires Between(at, scope) && ReadTopic(at, scope).Ok?
    ensures ReadTopic(at, scope) == Ok(next) && Between(next, scope) && next.previous == Some(t)
    ensures t !in at.topics && t in next.topics && next.topics == at.topics[t := next.topics[t]]
    ensures at.previous.Some? ==> Less(at.previous.value, t)
    ensures at.input == HistoryBytes(t, next.topics[t], scope.sequenced, next.input)
  {
    hide Gathers, ReadFront, ReadRecords, Less, TopicBytes, U64Bytes, U16Bytes, RecordsBytes;
    FrontWas(at, scope);
    var (begun, topic, evicted, count) := ReadFront(at, scope).value;
    t := topic;
    TopicIsNew(at, t);
    FrontGathers(at, at.topics, scope, t, evicted, begun.input);
    var m := at.topics[t := History(evicted, [])];
    var end, held := RecordsWere(begun, scope, m, t, count);
    next := end.(topics := at.topics[t := held]);
    assert m[t := held] == next.topics && held.records[0..] == held.records;
    GathersSame(end, next, next.topics, scope);
  }

  /** Topics that were read are those that were written, in rising order. */
  lemma {:induction false} TopicsWere(at: Reader, scope: Scope, count: nat) returns (end: Reader, keys: seq<Topic>)
    requires Between(at, scope) && ReadTopics(at, scope, count).Ok? && ReadTopics(at, scope, count).value.input == []
    ensures ReadTopics(at, scope, count) == Ok(end) && Between(end, scope)
    ensures |keys| == count && Increasing<seq<byte>>(Less, keys)
    ensures forall k :: k in keys ==> k !in at.topics && (at.previous.Some? ==> Less(at.previous.value, k))
    ensures forall u :: u in end.topics <==> u in at.topics || u in keys
    ensures forall u :: u in at.topics ==> end.topics[u] == at.topics[u]
    ensures at.input == TopicsBytes(keys, end.topics, scope.sequenced)
    decreases count
  {
    hide Between, ReadTopic, Less, HistoryBytes;
    if count == 0 {
      end, keys := at, [];
    } else {
      var next, t := TopicWas(at, scope);
      var rest;
      end, rest := TopicsWere(next, scope, count - 1);
      keys := [t] + rest;
      LessIsTotalOrder();
      assert keys[1..] == rest && end.topics[t] == next.topics[t];
    }
  }

  lemma HeaderWas(workspace: Id32, author: Id32, epoch: u64, bytes: seq<byte>)
    requires ReadHeader(workspace, author, epoch, bytes).Ok?
    ensures var (scope, count, input) := ReadHeader(workspace, author, epoch, bytes).value;
            && scope.workspace == workspace && count <= MAX_TOPICS
            && bytes == Magic(scope.sequenced) + (workspace + (author + (U64Bytes(epoch) + (U64Bytes(scope.head) + (U16Bytes(count) + input)))))
  {
    hide U64Bytes, U16Bytes, TakeU64, TakeU16, Take;
  }

  lemma StartBetween(input: seq<byte>, scope: Scope)
    ensures Between(Start(input), scope)
  {
    hide MapSum;
    assert Loads(map[]) == map[];
    NothingSums(Loads(map[]));
  }

  /** Whatever is restored was written for this owner, in one of the two forms, and
      is an index that passes every check. */
  lemma DecodeWas(workspace: Id32, author: Id32, epoch: u64, bytes: seq<byte>) returns (sequenced: bool)
    requires Decode(workspace, author, epoch, bytes).Ok?
    ensures var log := Decode(workspace, author, epoch, bytes).value;
            && (log.workspace, log.author, log.epoch) == (workspace, author, epoch) && Restorable(log)
            && Marked(log.topics, sequenced) && bytes == Written(log, sequenced)
  {
    hide ReadHeader, ReadTopics, Less, U64Bytes, U16Bytes, TopicsBytes, HasNumber, HasId, Coherent, Complete, HeldWeight, Magic, Listed, AnySequenced;
    HeaderWas(workspace, author, epoch, bytes);
    var (scope, count, input) := ReadHeader(workspace, author, epoch, bytes).value;
    sequenced := scope.sequenced;
    StartBetween(input, scope);
    var end, keys := TopicsWere(Start(input), scope, count);
    LessIsTotalOrder();
    IncreasingUnique<seq<byte>>(Less, keys, Listed(end.topics.Keys));
  }

  // ------------------------------------------------ whatever passes is read back

  ghost function Prefix(held: History, k: nat): History
    requires k <= |held.records|
  {
    held.(records := held.records[..k])
  }

  ghost predicate Agrees(part: map<Topic, History>, topics: map<Topic, History>) {
    forall u :: u in part ==> u in topics && part[u] == topics[u]
  }

  lemma NextUnborne(held: History, k: nat, head: u64)
    requires k < |held.records| && Rising(held, head)
    ensures Bears(held, held.records[k].sequence) && !Bears(Prefix(held, k), held.records[k].sequence)
    ensures Last(Prefix(held, k)) < held.records[k].sequence <= head
  {
    assert held.records[k] in held.records;
    if k > 0 { assert held.records[k - 1].sequence < held.records[k].sequence; }
  }

  lemma NumberUnborne(topics: map<Topic, History>, part: map<Topic, History>, t: Topic, held: History, n: u64)
    requires t in topics && t !in part && Agrees(part, topics) && OneNumber(topics) && Bears(topics[t], n) && !Bears(held, n)
    ensures !HasNumber(part[t := held], n)
  {
    hide Bears;
  }

  lemma IdUnborne(topics: map<Topic, History>, part: map<Topic, History>, t: Topic, k: nat)
    requires t in topics && t !in part && Agrees(part, topics) && OneId(topics) && k < |topics[t].records|
    ensures !HasId(part[t := Prefix(topics[t], k)], topics[t].records[k].context.id)
  {
    var m := part[t := Prefix(topics[t], k)];
    var id := topics[t].records[k].context.id;
    forall u, i | u in m && 0 <= i < |m[u].records| ensures m[u].records[i].context.id != id {
      assert m[u].records[i] == topics[u].records[i];
    }
    forall u | u in m ensures !BearsId(m[u], id) { assert forall r :: r in m[u].records ==> r.context.id != id; }
  }

  lemma NextFresh(at: Reader, scope: Scope, topics: map<Topic, History>, part: map<Topic, History>, t: Topic, k: nat)
    requires t in topics && t !in part && k < |topics[t].records| && Agrees(part, topics)
    requires Coherent(topics, scope.workspace, scope.head) && Marked(topics, scope.sequenced)
    requires Gathers(at, part[t := Prefix(topics[t], k)], scope) && at.bytes + Weight(topics[t].records[k]) <= MAX_RETAINED_BYTES
    ensures Fresh(at, scope, t, Prefix(topics[t], k), topics[t].records[k])
  {
    hide HasNumber, HasId, Weight, HeldWeight, OneNumber, OneId, Admissible, Last;
    var held, r := topics[t], topics[t].records[k];
    assert r in held.records;
    NextUnborne(held, k, scope.head);
    NumberUnborne(topics, part, t, Prefix(held, k), r.sequence);
    IdUnborne(topics, part, t, k);
  }

  /** All written records of a topic are read back, in order. */
  lemma {:induction false} RecordsRead(at: Reader, scope: Scope, topics: map<Topic, History>, part: map<Topic, History>, t: Topic, k: nat, rest: seq<byte>) returns (end: Reader)
    requires t in topics && t !in part && k <= |topics[t].records| && Agrees(part, topics)
    requires Coherent(topics, scope.workspace, scope.head) && Marked(topics, scope.sequenced)
    requires Gathers(at, part[t := Prefix(topics[t], k)], scope)
    requires at.input == RecordsBytes(topics[t].records[k..], scope.sequenced, rest) && at.bytes + Weights(topics[t].records[k..]) <= MAX_RETAINED_BYTES
    ensures ReadRecords(at, scope, t, Prefix(topics[t], k), |topics[t].records| - k) == Ok((end, topics[t]))
    ensures end.input == rest && end.topics == at.topics && end.previous == at.previous && end.bytes == at.bytes + Weights(topics[t].records[k..])
    ensures Gathers(end, part[t := topics[t]], scope)
    decreases |topics[t].records| - k
  {
    hide Gathers, Coherent, Marked, Agrees, ReadRecord, Weight, RecordBytes, Fresh;
    var held := topics[t];
    if k == |held.records| {
      assert Prefix(held, k) == held;
      end := at;
    } else {
      RecordsUnfold(held.records, k, scope.sequenced, rest);
      hide RecordsBytes, Weights;
      var behind := RecordsBytes(held.records[k + 1..], scope.sequenced, rest);
      var m, r := part[t := Prefix(held, k)], held.records[k];
      NextFresh(at, scope, topics, part, t, k);
      RecordRead(at, scope, t, Prefix(held, k), r, behind);
      RecordGathers(at, m, scope, t, r, behind);
      assert held.records[..k] + [r] == held.records[..k + 1];
      assert m[t := Prefix(held, k + 1)] == part[t := Prefix(held, k + 1)];
      end := RecordsRead(Beyond(at, r, behind), scope, topics, part, t, k + 1, rest);
    }
  }

  lemma WatermarkUnborne(topics: map<Topic, History>, part: map<Topic, History>, t: Topic)
    requires t in topics && t !in part && Agrees(part, topics) && OneNumber(topics) && topics[t].evictedThrough != 0
    ensures !HasNumber(part, topics[t].evictedThrough)
  {
    var n := topics[t].evictedThrough;
    assert Bears(topics[t], n);
    hide Bears;
  }

  lemma CoherentTopic(topics: map<Topic, History>, t: Topic, workspace: Id32, head: u64)
    requires t in topics && Coherent(topics, workspace, head)
    ensures topics[t].evictedThrough <= head && OneNumber(topics)
  {
    hide OneNumber, OneId;
  }

  /** One written topic is read back whole. */
  lemma TopicRead(at: Reader, scope: Scope, topics: map<Topic, History>, t: Topic, rest: seq<byte>) returns (end: Reader)
    requires t in topics && t !in at.topics && Agrees(at.topics, topics) && Complete(topics)
    requires Coherent(topics, scope.workspace, scope.head) && Marked(topics, scope.sequenced) && Gathers(at, at.topics, scope)
    requires at.input == HistoryBytes(t, topics[t], scope.sequenced, rest) && (at.previous.Some? ==> Less(at.previous.value, t))
    requires at.bytes + Weights(topics[t].records) <= MAX_RETAINED_BYTES
    ensures ReadTopic(at, scope) == Ok(end)
    ensures end.input == rest && end.previous == Some(t) && end.topics == at.topics[t := topics[t]]
    ensures end.bytes == at.bytes + Weights(topics[t].records) && Gathers(end, end.topics, scope)
  {
    hide Gathers, Coherent, Marked, Agrees, ReadFront, RecordsBytes, Weights, U64Bytes, U16Bytes, TopicBytes, Less, ReadRecords;
    var held := topics[t];
    CoherentTopic(topics, t, scope.workspace, scope.head);
    if held.evictedThrough != 0 { WatermarkUnborne(topics, at.topics, t); GathersNumber(at, at.topics, scope, held.evictedThrough); }
    var records := RecordsBytes(held.records, scope.sequenced, rest);
    FrontRead(at, scope, t, held, records);
    FrontGathers(at, at.topics, scope, t, held.evictedThrough, records);
    assert held.records[0..] == held.records && Prefix(held, 0) == History(held.evictedThrough, []);
    var read := RecordsRead(Opening(at, t, held.evictedThrough, records), scope, topics, at.topics, t, 0, rest);
    end := read.(topics := at.topics[t := held]);
    GathersSame(read, end, end.topics, scope);
  }

  lemma GathersNumber(at: Reader, topics: map<Topic, History>, scope: Scope, n: u64)
    requires Gathers(at, topics, scope)
    ensures n in at.sequences <==> HasNumber(topics, n)
  {
    hide HasNumber, HasId, Coherent, Marked, HeldWeight;
  }

  lemma TopicsUnfold(keys: seq<Topic>, k: nat, topics: map<Topic, History>, sequenced: bool)
    requires k < |keys| && forall t :: t in keys ==> t in topics
    ensures TopicsBytes(keys[k..], topics, sequenced)
         == HistoryBytes(keys[k], topics[keys[k]], sequenced, TopicsBytes(keys[k + 1..], topics, sequenced))
    ensures ListedWeight(keys[k..], topics) == Weights(topics[keys[k]].records) + ListedWeight(keys[k + 1..], topics)
  {
    assert keys[k..][1..] == keys[k + 1..];
  }

  lemma KeysStep(topics: map<Topic, History>, keys: seq<Topic>, k: nat)
    requires keys == Listed(topics.Keys) && k < |keys|
    ensures keys[k] in topics && keys[k] !in Elements(keys[..k]) && Elements(keys[..k + 1]) == Elements(keys[..k]) + {keys[k]}
    ensures k > 0 ==> Less(keys[k - 1], keys[k])
  {
    ListedDistinct(topics.Keys);
    hide Listed, Less;
    assert keys[k] in keys && keys[..k + 1] == keys[..k] + [keys[k]];
  }

  /** What the reader has after the first k topics of a snapshot. */
  ghost predicate AtTopic(at: Reader, scope: Scope, topics: map<Topic, History>, keys: seq<Topic>, k: nat)
    requires k <= |keys| && forall t :: t in keys ==> t in topics
  {
    && at.input == TopicsBytes(keys[k..], topics, scope.sequenced)
    && at.previous == (if k == 0 then None else Some(keys[k - 1]))
    && at.topics.Keys == Elements(keys[..k]) && Agrees(at.topics, topics)
    && at.bytes + ListedWeight(keys[k..], topics) <= MAX_RETAINED_BYTES
    && Gathers(at, at.topics, scope)
  }

  /** All written topics are read back. */
  lemma {:induction false} TopicsRead(at: Reader, scope: Scope, topics: map<Topic, History>, keys: seq<Topic>, k: nat) returns (end: Reader)
    requires keys == Listed(topics.Keys) && k <= |keys| && AtTopic(at, scope, topics, keys, k)
    requires Complete(topics) && Coherent(topics, scope.workspace, scope.head) && Marked(topics, scope.sequenced)
    ensures ReadTopics(at, scope, |keys| - k) == Ok(end) && AtTopic(end, scope, topics, keys, |keys|)
    decreases |keys| - k
  {
    hide Gathers, Coherent, Complete, Marked, ReadTopic, TopicsBytes, HistoryBytes, ListedWeight, Weights, Listed, Elements, Less;
    if k == |keys| {
      end := at;
    } else {
      KeysStep(topics, keys, k);
      TopicsUnfold(keys, k, topics, scope.sequenced);
      var next := TopicRead(at, scope, topics, keys[k], TopicsBytes(keys[k + 1..], topics, scope.sequenced));
      end := TopicsRead(next, scope, topics, keys, k + 1);
    }
  }

  lemma HeaderRead(log: Log, sequenced: bool, rest: seq<byte>)
    requires |log.topics| <= MAX_TOPICS && |Written(log, sequenced)| <= MAX_SNAPSHOT_BYTES
    requires rest == TopicsBytes(Listed(log.topics.Keys), log.topics, sequenced)
    ensures ReadHeader(log.workspace, log.author, log.epoch, Written(log, sequenced)) == Ok((Scope(log.workspace, log.head, sequenced), |log.topics|, rest))
  {
    hide U64Bytes, U16Bytes, TakeU64, TakeU16, Take, TopicsBytes, Listed;
    var count := U16Bytes(|log.topics|) + rest;
    var head := U64Bytes(log.head) + count;
    var epoch := U64Bytes(log.epoch) + head;
    TakeWritten(Magic(sequenced), log.workspace + (log.author + epoch));
    TakeWritten(log.workspace, log.author + epoch);
    TakeWritten(log.author, epoch);
    U64Written(log.epoch, head);
    U64Written(log.head, count);
    U16Written(|log.topics|, rest);
  }

  lemma StartAt(scope: Scope, log: Log)
    requires Restorable(log)
    ensures var keys := Listed(log.topics.Keys); AtTopic(Start(TopicsBytes(keys, log.topics, scope.sequenced)), scope, log.topics, keys, 0)
  {
    hide Gathers, TopicsBytes, ListedWeight, HeldWeight, Listed, Coherent, Complete, HasNumber;
    var keys := Listed(log.topics.Keys);
    HeldWeightListed(log.topics);
    StartBetween(TopicsBytes(keys, log.topics, scope.sequenced), scope);
    assert keys[0..] == keys && Elements(keys[..0]) == {};
  }

  lemma EndAt(end: Reader, scope: Scope, log: Log)
    requires Restorable(log) && AtTopic(end, scope, log.topics, Listed(log.topics.Keys), |log.topics|)
    ensures end.input == [] && end.topics == log.topics && Gathers(end, log.topics, scope)
  {
    hide Gathers, HeldWeight, Less, Listed, Coherent, Complete, HasNumber, ListedWeight, Elements, Restorable;
    var keys := Listed(log.topics.Keys);
    ListedDistinct(log.topics.Keys);
    assert keys[..|keys|] == keys && keys[|keys|..] == [];
    AgreeAll(end.topics, log.topics);
  }

  lemma AgreeAll(part: map<Topic, History>, topics: map<Topic, History>)
    requires part.Keys == topics.Keys && Agrees(part, topics)
    ensures part == topics
  {
  }

  lemma TopIsHead(end: Reader, scope: Scope, log: Log)
    requires Restorable(log) && scope.head == log.head && Gathers(end, log.topics, scope)
    ensures end.bytes == log.bytes && end.highest == log.head
  {
    hide HeldWeight, HasNumber, HasId, Coherent, Complete, Marked;
    if end.highest != 0 { NumberBelow(log.topics, scope.workspace, log.head, end.highest); }
  }

  lemma NumberBelow(topics: map<Topic, History>, workspace: Id32, head: u64, n: u64)
    requires Coherent(topics, workspace, head) && HasNumber(topics, n)
    ensures n <= head
  {
    hide OneNumber, OneId, Belongs;
  }

  lemma WrittenFits(log: Log, sequenced: bool)
    requires Restorable(log)
    ensures |Written(log, sequenced)| <= MAX_SNAPSHOT_BYTES
  {
    hide Coherent, Complete, HasNumber, HeldWeight, TopicsBytes, ListedWeight, Listed;
    TopicsSize(Listed(log.topics.Keys), log.topics, sequenced);
    HeldWeightListed(log.topics);
  }

  lemma WrittenIsRead(log: Log, sequenced: bool)
    requires Restorable(log) && Marked(log.topics, sequenced)
    ensures Decode(log.workspace, log.author, log.epoch, Written(log, sequenced)) == Ok(log)
  {
    hide ReadHeader, ReadTopics, AtTopic, Listed, Coherent, Complete, HasNumber, HeldWeight, Written, TopicsBytes, AnySequenced, Gathers;
    var keys := Listed(log.topics.Keys);
    var scope := Scope(log.workspace, log.head, sequenced);
    var rest := TopicsBytes(keys, log.topics, sequenced);
    WrittenFits(log, sequenced);
    StartAt(scope, log);
    HeaderRead(log, sequenced, rest);
    var end := TopicsRead(Start(rest), scope, log.topics, keys, 0);
    EndAt(end, scope, log);
    TopIsHead(end, scope, log);
  }

  /** Restoring, exactly: bytes are restored to an index if and only if it is of
      this owner, passes every check, and the bytes are its own in one of the two
      forms, the second one if any record is sequenced. */
  lemma RestoresExactly(workspace: Id32, author: Id32, epoch: u64, bytes: seq<byte>, log: Log)
    ensures Decode(workspace, author, epoch, bytes) == Ok(log) <==>
              && (log.workspace, log.author, log.epoch) == (workspace, author, epoch) && Restorable(log)
              && exists sequenced :: Marked(log.topics, sequenced) && bytes == Written(log, sequenced)
  {
    hide Decode, Restorable, Written, Marked;
    if Decode(workspace, author, epoch, bytes) == Ok(log) {
      var sequenced := DecodeWas(workspace, author, epoch, bytes);
      assert Marked(log.topics, sequenced) && bytes == Written(log, sequenced);
    }
    if sequenced :| Marked(log.topics, sequenced) && bytes == Written(log, sequenced) {
      if (log.workspace, log.author, log.epoch) == (workspace, author, epoch) && Restorable(log) { WrittenIsRead(log, sequenced); }
    }
  }

  // ---------------------------------------------------------------- round trip

  /** The k-th record of a topic is the one the past has at its number. */
  lemma RecordAt(log: Log, past: seq<Record>, t: Topic, k: nat)
    requires Faithful(log, past) && t in log.topics && k < |log.topics[t].records|
    ensures var r := log.topics[t].records[k];
            && 1 <= r.sequence <= |past| && past[r.sequence - 1] == r && Kept(log, r)
            && r.context.topic == t && Admissible(log.workspace, r) && r.sequence > log.topics[t].evictedThrough
  {
    hide Pick, DistinctIds, Accounted;
    var held := log.topics[t];
    assert TopicFaithful(held, t, past);
    PickMember(past, {t}, held.evictedThrough, held.records[k]);
    PickAscends(past, {t}, held.evictedThrough);
    var i :| 0 <= i < |past| && past[i] == held.records[k];
  }

  lemma ReachedTopic(log: Log, past: seq<Record>, t: Topic)
    requires Reached(log, past) && t in log.topics
    ensures var held := log.topics[t];
            && |held.records| <= MAX_PACKETS_PER_TOPIC && (held.evictedThrough != 0 || held.records != [])
            && Rising(held, log.head) && Belongs(held, t, log.workspace)
            && (held.evictedThrough != 0 ==> past[held.evictedThrough - 1].context.topic == t)
  {
    hide Pick, DistinctIds, Accounted, Admissible, Kept;
    var held := log.topics[t];
    assert TopicFaithful(held, t, past);
    PickAscends(past, {t}, held.evictedThrough);
    forall r | r in held.records ensures Admissible(log.workspace, r) && r.context.topic == t {
      var k :| 0 <= k < |held.records| && held.records[k] == r;
      RecordAt(log, past, t, k);
    }
    var key := (r: Record) => r.sequence;
    forall i, j | 0 <= i < j < |held.records| ensures held.records[i].sequence < held.records[j].sequence {
      assert key(held.records[i]) < key(held.records[j]);
    }
  }

  /** A number a topic bears is that of something published on it. */
  lemma BornInPast(log: Log, past: seq<Record>, t: Topic, n: u64)
    requires Reached(log, past) && t in log.topics && Bears(log.topics[t], n)
    ensures 1 <= n <= |past| && past[n - 1].context.topic == t
  {
    hide Pick, DistinctIds, Accounted;
    var held := log.topics[t];
    ReachedTopic(log, past, t);
    if r :| r in held.records && r.sequence == n {
      var k :| 0 <= k < |held.records| && held.records[k] == r;
      RecordAt(log, past, t, k);
    }
  }

  /** The record is in the past at its number, and still kept. */
  ghost predicate Stands(log: Log, past: seq<Record>, r: Record) {
    1 <= r.sequence <= |past| && past[r.sequence - 1] == r && Kept(log, r)
  }

  lemma SameRecord(log: Log, past: seq<Record>, a: Record, b: Record)
    requires DistinctIds(log, past) && Stands(log, past, a) && Stands(log, past, b) && a.context.id == b.context.id
    ensures a == b
  {
    hide Kept;
  }

  lemma RecordStands(log: Log, past: seq<Record>, t: Topic, k: nat)
    requires Reached(log, past) && t in log.topics && k < |log.topics[t].records|
    ensures DistinctIds(log, past) && Stands(log, past, log.topics[t].records[k]) && log.topics[t].records[k].context.topic == t
  {
    ReachedFaithful(log, past);
    hide Reached, Kept, Admissible, TopicsFaithful, AllAdmissible, Accounted, DistinctIds;
    RecordAt(log, past, t, k);
  }

  lemma SameIndex(held: History, head: u64, i: nat, j: nat)
    requires Rising(held, head) && i < |held.records| && j < |held.records| && held.records[i] == held.records[j]
    ensures i == j
  {
  }

  lemma SameId(log: Log, past: seq<Record>, t: Topic, u: Topic, i: nat, j: nat)
    requires Reached(log, past) && t in log.topics && u in log.topics && i < |log.topics[t].records| && j < |log.topics[u].records|
    requires log.topics[t].records[i].context.id == log.topics[u].records[j].context.id
    ensures t == u && i == j
  {
    hide Reached, DistinctIds, Stands, Rising, Belongs;
    RecordStands(log, past, t, i);
    RecordStands(log, past, u, j);
    SameRecord(log, past, log.topics[t].records[i], log.topics[u].records[j]);
    ReachedTopic(log, past, t);
    SameIndex(log.topics[t], log.head, i, j);
  }

  lemma HeadBorne(log: Log, past: seq<Record>)
    requires Reached(log, past) && log.head != 0
    ensures HasNumber(log.topics, log.head)
  {
    hide Pick, DistinctIds, Accounted;
    var last := past[|past| - 1];
    var t := last.context.topic;
    assert TopicFaithful(log.topics[t], t, past);
    PickMember(past, {t}, log.topics[t].evictedThrough, last);
    assert Bears(log.topics[t], log.head);
  }

  lemma ReachedOnce(log: Log, past: seq<Record>)
    requires Reached(log, past)
    ensures OneNumber(log.topics) && OneId(log.topics)
  {
    hide Reached, Bears;
    forall t, u, n | t in log.topics && u in log.topics && Bears(log.topics[t], n) && Bears(log.topics[u], n) ensures t == u {
      BornInPast(log, past, t, n);
      BornInPast(log, past, u, n);
    }
    forall t, u, i, j | t in log.topics && u in log.topics && 0 <= i < |log.topics[t].records| && 0 <= j < |log.topics[u].records|
        && log.topics[t].records[i].context.id == log.topics[u].records[j].context.id ensures t == u && i == j {
      SameId(log, past, t, u, i, j);
    }
  }

  /** Every index a run reaches passes every check. */
  lemma ReachedRestorable(log: Log, past: seq<Record>)
    requires Reached(log, past)
    ensures Restorable(log)
  {
    hide Reached, Rising, Belongs, HasNumber, HeldWeight, OneNumber, OneId;
    if log.head != 0 { HeadBorne(log, past); }
    ReachedScope(log, past);
    ReachedOnce(log, past);
    forall t | t in log.topics
      ensures Rising(log.topics[t], log.head) && Belongs(log.topics[t], t, log.workspace)
      ensures (log.topics[t].evictedThrough != 0 || log.topics[t].records != []) && |log.topics[t].records| <= MAX_PACKETS_PER_TOPIC
    {
      ReachedTopic(log, past, t);
    }
  }

  lemma ReachedScope(log: Log, past: seq<Record>)
    requires Reached(log, past)
    ensures |past| == log.head && |log.topics| <= MAX_TOPICS && log.bytes == HeldWeight(log.topics) <= MAX_RETAINED_BYTES
  {
  }

  /** Snapshot round trip: every reachable index is restored as itself. */
  lemma RoundTrip(log: Log, past: seq<Record>)
    requires Reached(log, past)
    ensures Decode(log.workspace, log.author, log.epoch, Encode(log)) == Ok(log)
  {
    hide Reached, Restorable, Written, AnySequenced, Decode;
    ReachedRestorable(log, past);
    WrittenIsRead(log, AnySequenced(log.topics));
  }

  lemma OwnerWritten(log: Log, sequenced: bool, other: Log, marked: bool)
    requires Written(log, sequenced) == Written(other, marked)
    ensures (log.workspace, log.author, log.epoch, sequenced) == (other.workspace, other.author, other.epoch, marked)
  {
    hide U64Bytes, U16Bytes, TopicsBytes, Listed;
    var rest := U64Bytes(log.head) + (U16Bytes(|log.topics|) + TopicsBytes(Listed(log.topics.Keys), log.topics, sequenced));
    var beyond := U64Bytes(other.head) + (U16Bytes(|other.topics|) + TopicsBytes(Listed(other.topics.Keys), other.topics, marked));
    TakeWritten(Magic(sequenced), log.workspace + (log.author + (U64Bytes(log.epoch) + rest)));
    TakeWritten(Magic(marked), other.workspace + (other.author + (U64Bytes(other.epoch) + beyond)));
    TakeWritten(log.workspace, log.author + (U64Bytes(log.epoch) + rest));
    TakeWritten(other.workspace, other.author + (U64Bytes(other.epoch) + beyond));
    TakeWritten(log.author, U64Bytes(log.epoch) + rest);
    TakeWritten(other.author, U64Bytes(other.epoch) + beyond);
    U64Written(log.epoch, rest);
    U64Written(other.epoch, beyond);
    assert MAGIC[4] != SEQUENCED_MAGIC[4];
  }

  /** The snapshot of an index restores for its own workspace, author and epoch and
      for no other. */
  lemma RestoredIsOwned(log: Log, past: seq<Record>, workspace: Id32, author: Id32, epoch: u64)
    requires Reached(log, past)
    ensures Decode(workspace, author, epoch, Encode(log)).Ok? <==> (workspace, author, epoch) == (log.workspace, log.author, log.epoch)
  {
    hide Reached, Restorable, Written, AnySequenced, Decode;
    RoundTrip(log, past);
    if Decode(workspace, author, epoch, Encode(log)).Ok? {
      var sequenced := DecodeWas(workspace, author, epoch, Encode(log));
      OwnerWritten(log, AnySequenced(log.topics), Decode(workspace, author, epoch, Encode(log)).value, sequenced);
    }
  }

  /** Restored bytes are written again as themselves exactly when they mark their
      records only if one of them is sequenced. */
  lemma RestoredReencodes(workspace: Id32, author: Id32, epoch: u64, bytes: seq<byte>)
    requires Decode(workspace, author, epoch, bytes).Ok?
    ensures var log := Decode(workspace, author, epoch, bytes).value;
            Encode(log) == bytes <==> (SEQUENCED_MAGIC <= bytes ==> AnySequenced(log.topics))
  {
    var log := Decode(workspace, author, epoch, bytes).value;
    hide Restorable, AnySequenced, Decode;
    var sequenced := DecodeWas(workspace, author, epoch, bytes);
    MagicWritten(log, sequenced);
    if sequenced != AnySequenced(log.topics) && Encode(log) == bytes { OwnerWritten(log, sequenced, log, AnySequenced(log.topics)); }
  }

  lemma MagicWritten(log: Log, sequenced: bool)
    ensures SEQUENCED_MAGIC <= Written(log, sequenced) <==> sequenced
  {
    hide U64Bytes, U16Bytes, TopicsBytes, Listed;
    assert Written(log, sequenced)[4] == Magic(sequenced)[4];
  }

  // ----------------------------------------------- saving beside a full inbox

  /** The loop of `snapshot_with_publisher`: give up the oldest records until
      the index fits beside the inbox, or report that nothing is left to give. */
  ghost function Narrow(log: Log, inbox: nat): Result<Log>
    requires Accounted(log)
    decreases log.bytes
  {
    if 9 + |Encode(log)| + inbox <= MAX_WORKSPACE_ATTACHMENT then Ok(log) else
    if !(exists t :: Holds(log, t)) then Err(ExceedsBound) else
    EvictAccounted(log, OldestTopic(log));
    Narrow(Evict(log, OldestTopic(log)), inbox)
  }

  // One turn of the loop, and its end.

  lemma NarrowTurn(log: Log, inbox: nat)
    requires Accounted(log) && 9 + |Encode(log)| + inbox > MAX_WORKSPACE_ATTACHMENT
    ensures (forall t :: !Holds(log, t)) ==> Narrow(log, inbox) == Err(ExceedsBound)
    ensures (exists t :: Holds(log, t)) ==>
              && Weight(log.topics[OldestTopic(log)].records[0]) <= log.bytes
              && Accounted(Evict(log, OldestTopic(log)))
              && Narrow(log, inbox) == Narrow(Evict(log, OldestTopic(log)), inbox)
  {
    hide Encode, Accounted;
    if exists t :: Holds(log, t) { EvictAccounted(log, OldestTopic(log)); }
  }

  lemma NarrowDone(log: Log, inbox: nat)
    requires Accounted(log) && 9 + |Encode(log)| + inbox <= MAX_WORKSPACE_ATTACHMENT
    ensures Narrow(log, inbox) == Ok(log)
  {
  }

  lemma EvictReached(log: Log, past: seq<Record>, t: Topic)
    requires Reached(log, past) && Holds(log, t)
    ensures Accounted(log) && Weight(log.topics[t].records[0]) <= log.bytes
    ensures Reached(Evict(log, t), past) && Raised(log, Evict(log, t)) && Evict(log, t).bytes < log.bytes
    ensures forall u :: u in log.topics && u != t ==> Evict(log, t).topics[u] == log.topics[u]
  {
    hide Faithful, Weight;
    EvictFaithful(log, past, t);
    ReachedAccounted(log, past);
  }

  lemma ReachedAccounted(log: Log, past: seq<Record>)
    requires Faithful(log, past)
    ensures Accounted(log)
  {
  }

  /** The bytes of topics without records: name, watermark and a zero count. */
  function BareTopics(keys: seq<Topic>): nat {
    if keys == [] then 0 else |keys[0]| + 11 + BareTopics(keys[1..])
  }

  /** The bytes of an index that has given up every record. */
  function BareSize(topics: set<Topic>): nat { 87 + BareTopics(Listed(topics)) }

  lemma {:induction false} RecordsTakeSpace(rs: seq<Record>, sequenced: bool, rest: seq<byte>)
    ensures |RecordsBytes(rs, sequenced, rest)| >= |rest|
    ensures rs == [] ==> RecordsBytes(rs, sequenced, rest) == rest
  {
    if rs != [] { RecordsTakeSpace(rs[1..], sequenced, rest); }
  }

  lemma {:induction false} TopicsTakeSpace(keys: seq<Topic>, topics: map<Topic, History>, sequenced: bool)
    requires forall t :: t in keys ==> t in topics
    ensures |TopicsBytes(keys, topics, sequenced)| >= BareTopics(keys)
    ensures (forall t :: t in keys ==> topics[t].records == []) ==> |TopicsBytes(keys, topics, sequenced)| == BareTopics(keys)
  {
    hide RecordsBytes, U64Bytes, U16Bytes;
    if keys != [] {
      TopicsTakeSpace(keys[1..], topics, sequenced);
      RecordsTakeSpace(topics[keys[0]].records, sequenced, TopicsBytes(keys[1..], topics, sequenced));
    }
  }

  /** Records only ever add to the encoding of their topics. */
  lemma BareIsLeast(log: Log)
    ensures BareSize(log.topics.Keys) <= |Encode(log)|
    ensures (forall t :: !Holds(log, t)) ==> BareSize(log.topics.Keys) == |Encode(log)|
  {
    hide TopicsBytes, Listed, AnySequenced, BareTopics;
    TopicsTakeSpace(Listed(log.topics.Keys), log.topics, AnySequenced(log.topics));
    if forall t :: !Holds(log, t) {
      forall t | t in Listed(log.topics.Keys) ensures log.topics[t].records == [] { assert !Holds(log, t); }
    }
  }

  /** Persisting narrows soundly: the loop ends; it fails if and only if the
      topics alone, without any record, do not fit beside the inbox; otherwise
      what it saves fits, keeps the head, only raises watermarks, is read back as
      itself, and answers no range differently from the live index. */
  lemma {:induction false} NarrowSound(log: Log, past: seq<Record>, inbox: nat)
    requires Reached(log, past)
    ensures Accounted(log)
    ensures var saved := Narrow(log, inbox);
            && (saved.Err? <==> 9 + BareSize(log.topics.Keys) + inbox > MAX_WORKSPACE_ATTACHMENT)
            && (saved.Ok? ==> && Reached(saved.value, past) && Raised(log, saved.value)
                              && 9 + |Encode(saved.value)| + inbox <= MAX_WORKSPACE_ATTACHMENT
                              && Decode(log.workspace, log.author, log.epoch, Encode(saved.value)) == Ok(saved.value))
    decreases log.bytes
  {
    hide Reached, Encode, Decode, Accounted, Raised, Holds, BareSize, Narrow, Weight, Evict;
    ReachedFaithful(log, past);
    ReachedAccounted(log, past);
    RaisedReflexive(log);
    BareIsLeast(log);
    if 9 + |Encode(log)| + inbox <= MAX_WORKSPACE_ATTACHMENT {
      NarrowDone(log, inbox);
      RoundTrip(log, past);
    } else if exists t :: Holds(log, t) {
      NarrowTurn(log, inbox);
      var t := OldestTopic(log);
      OldestHolds(log, t);
      EvictReached(log, past, t);
      var next := Evict(log, t);
      RaisedKeys(log, next);
      NarrowSound(next, past, inbox);
      if Narrow(next, inbox).Ok? { RaisedTransitive(log, next, Narrow(next, inbox).value); }
    } else {
      NarrowTurn(log, inbox);
    }
  }

  lemma RaisedKeys(log: Log, next: Log)
    requires Raised(log, next)
    ensures next.topics.Keys == log.topics.Keys
    ensures (next.workspace, next.author, next.epoch) == (log.workspace, log.author, log.epoch)
  {
  }

  /** The restored index answers only as the live one would. */
  lemma SavedAnswersStand(log: Log, past: seq<Record>, inbox: nat, after: u64, through: u64, topics: set<Topic>)
    requires Reached(log, past)
    ensures Accounted(log)
    ensures var saved := Narrow(log, inbox);
            saved.Ok? && Select(saved.value, after, through, topics).Found?
            ==> Select(log, after, through, topics) == Select(saved.value, after, through, topics)
  {
    hide Reached, Narrow, Select, Encode, Decode;
    NarrowSound(log, past, inbox);
    ReachedFaithful(log, past);
    if Narrow(log, inbox).Ok? {
      ReachedFaithful(Narrow(log, inbox).value, past);
      if Select(Narrow(log, inbox).value, after, through, topics).Found? {
        RaisedSelect(log, Narrow(log, inbox).value, past, after, through, topics);
      }
    }
  }
}
