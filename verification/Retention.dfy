/** The publisher's bounded retention index, as values: the state, what one
    append or eviction does to it, and what it remembers of the whole past.
    Models crates/arachne-delivery/src/lib.rs. The class that updates such a
    state in place is in PublisherLog.dfy. */
module Retention {
  import opened Bytes
  import opened Ordering
  import opened Publication

  const MAX_TOPICS: nat := 64
  const MAX_PACKETS_PER_TOPIC: nat := 32
  const MAX_RETAINED_BYTES: nat := 512 * 1024
  const MAX_APPLICATION_CIPHERTEXT: nat := 16 * 1024
  const MAX_REPLY_BYTES: nat := 128 * 1024
  const MAX_RECOVERY_PACKETS: nat := 32

  datatype Record = Record(sequence: u64, context: Context, ciphertext: seq<byte>)

  function Weight(r: Record): nat {
    |AuthenticatedBytes(r.context)| + |r.ciphertext| + 12
  }

  function Weights(rs: seq<Record>): nat {
    if rs == [] then 0 else Weight(rs[0]) + Weights(rs[1..])
  }

  /** One topic: the newest sequence already evicted, and what is still held. */
  datatype History = History(evictedThrough: u64, records: seq<Record>)

  datatype Log = Log(workspace: Id32, author: Id32, epoch: u64, head: u64, bytes: nat, topics: map<Topic, History>)

  function Empty(workspace: Id32, author: Id32, epoch: u64): Log {
    Log(workspace, author, epoch, 0, 0, map[])
  }

  ghost function Loads(topics: map<Topic, History>): map<Topic, nat> {
    map t | t in topics :: Weights(topics[t].records)
  }

  ghost function HeldWeight(topics: map<Topic, History>): nat {
    MapSum(Loads(topics))
  }

  lemma HeldWeightUpdate(topics: map<Topic, History>, t: Topic, held: History)
    ensures HeldWeight(topics[t := held])
         == HeldWeight(topics) + Weights(held.records) - (if t in topics then Weights(topics[t].records) else 0)
    ensures t in topics ==> Weights(topics[t].records) <= HeldWeight(topics)
  {
    MapSumUpdate(Loads(topics), t, Weights(held.records));
    assert Loads(topics[t := held]) == Loads(topics)[t := Weights(held.records)];
    if t in topics { MapSumTake(Loads(topics), t); }
  }

  /** The byte counter is the weight of what is held. */
  ghost predicate Accounted(log: Log) {
    log.bytes == HeldWeight(log.topics)
  }

  predicate Holds(log: Log, t: Topic) {
    t in log.topics && log.topics[t].records != []
  }

  predicate HoldsId(log: Log, id: Id16) {
    exists t :: t in log.topics && exists r :: r in log.topics[t].records && r.context.id == id
  }

  // ------------------------------------------------------------------ eviction

  function Evict(log: Log, t: Topic): Log
    requires Holds(log, t) && Weight(log.topics[t].records[0]) <= log.bytes
  {
    var first := log.topics[t].records[0];
    log.(topics := log.topics[t := History(first.sequence, log.topics[t].records[1..])], bytes := log.bytes - Weight(first))
  }

  predicate Oldest(log: Log, t: Topic) {
    Holds(log, t) && forall u :: u in log.topics && Holds(log, u) ==> log.topics[t].records[0].sequence <= log.topics[u].records[0].sequence
  }

  ghost function OldestTopic(log: Log): (t: Topic)
    requires exists u :: Holds(log, u)
    ensures Oldest(log, t)
  {
    OldestExists(log, log.topics.Keys);
    var t :| OldestAmong(log, log.topics.Keys, t);
    t
  }

  ghost predicate OldestAmong(log: Log, among: set<Topic>, t: Topic) {
    && t in among && Holds(log, t)
    && forall u :: u in among && Holds(log, u) ==> log.topics[t].records[0].sequence <= log.topics[u].records[0].sequence
  }

  lemma {:induction false} OldestExists(log: Log, among: set<Topic>)
    requires exists u :: u in among && Holds(log, u)
    ensures exists t :: OldestAmong(log, among, t)
  {
    var t :| t in among && Holds(log, t);
    if exists u :: u in among - {t} && Holds(log, u) {
      OldestExists(log, among - {t});
      var m :| OldestAmong(log, among - {t}, m);
      if log.topics[t].records[0].sequence <= log.topics[m].records[0].sequence {
        assert OldestAmong(log, among, t);
      } else {
        assert OldestAmong(log, among, m);
      }
    } else {
      assert OldestAmong(log, among, t);
    }
  }

  /** Evicting a held front moves exactly its weight out of the counter. */
  lemma EvictAccounted(log: Log, t: Topic)
    requires Accounted(log) && Holds(log, t)
    ensures Weight(log.topics[t].records[0]) <= log.bytes
    ensures Accounted(Evict(log, t)) && Evict(log, t).bytes < log.bytes
  {
    var held := log.topics[t];
    HeldWeightUpdate(log.topics, t, History(held.records[0].sequence, held.records[1..]));
  }

  lemma {:induction false} NothingHeldWeighsNothing<K>(m: map<K, nat>)
    requires forall k :: k in m ==> m[k] == 0
    ensures MapSum(m) == 0
    decreases |m|
  {
    if m != map[] {
      var k :| k in m;
      MapSumTake(m, k);
      assert (m - {k}).Keys == m.Keys - {k};
      NothingHeldWeighsNothing(m - {k});
    }
  }

  lemma WeightIsHeld(log: Log)
    requires Accounted(log) && log.bytes > 0
    ensures exists u :: Holds(log, u)
  {
    if !exists u :: Holds(log, u) {
      forall t | t in log.topics ensures Loads(log.topics)[t] == 0 { assert !Holds(log, t); }
      NothingHeldWeighsNothing(Loads(log.topics));
    }
  }

  /** The eviction loop of `append`: oldest first, until the budget holds. */
  ghost function Shrink(log: Log): Log
    requires Accounted(log)
    decreases log.bytes
  {
    if log.bytes <= MAX_RETAINED_BYTES then log else
    WeightIsHeld(log);
    EvictAccounted(log, OldestTopic(log));
    Shrink(Evict(log, OldestTopic(log)))
  }

  // -------------------------------------------------------------------- append

  function Refusal(log: Log, c: Context, ciphertext: seq<byte>): Option<Error> {
    if c.workspace != log.workspace || |ciphertext| == 0 || |ciphertext| > MAX_APPLICATION_CIPHERTEXT then Some(InvalidPublication)
    else if c.topic !in log.topics && |log.topics| == MAX_TOPICS then Some(TopicLimit)
    else if HoldsId(log, c.id) then Some(AlreadyRetained)
    else if log.head == U64_MAX then Some(SequenceExhausted)
    else if c.sequence.Some? && c.sequence.value != log.head + 1 then Some(SequenceMismatch)
    else None
  }

  function Held(log: Log, t: Topic): History {
    if t in log.topics then log.topics[t] else History(0, [])
  }

  function Push(log: Log, r: Record): Log {
    var t := r.context.topic;
    var held := Held(log, t);
    log.(head := r.sequence, bytes := log.bytes + Weight(r), topics := log.topics[t := held.(records := held.records + [r])])
  }

  lemma {:induction false} WeightsAppend(rs: seq<Record>, r: Record)
    ensures Weights(rs + [r]) == Weights(rs) + Weight(r)
  {
    if rs != [] {
      assert (rs + [r])[1..] == rs[1..] + [r];
      WeightsAppend(rs[1..], r);
    }
  }

  lemma PushAccounted(log: Log, r: Record)
    requires Accounted(log)
    ensures Accounted(Push(log, r))
  {
    var held := Held(log, r.context.topic);
    WeightsAppend(held.records, r);
    HeldWeightUpdate(log.topics, r.context.topic, held.(records := held.records + [r]));
  }

  function NewRecord(log: Log, c: Context, ciphertext: seq<byte>): Record
    requires log.head < U64_MAX
  {
    Record(log.head + 1, c, ciphertext)
  }

  /** The state once the record is in and its own topic is back within 32. */
  ghost function Capped(log: Log, r: Record): (next: Log)
    requires Accounted(log)
    ensures Accounted(next)
  {
    PushAccounted(log, r);
    var pushed := Push(log, r);
    if |pushed.topics[r.context.topic].records| > MAX_PACKETS_PER_TOPIC then
      EvictAccounted(pushed, r.context.topic);
      Evict(pushed, r.context.topic)
    else pushed
  }

  ghost function Append(log: Log, c: Context, ciphertext: seq<byte>): Result<Log>
    requires Accounted(log)
  {
    var refusal := Refusal(log, c, ciphertext);
    if refusal.Some? then Err(refusal.value) else Ok(Shrink(Capped(log, NewRecord(log, c, ciphertext))))
  }

  // ----------------------------------------------------- the unbounded history

  /** The records of a history on some topics above a sequence, in order. */
  ghost function Pick(past: seq<Record>, topics: set<Topic>, after: nat): seq<Record> {
    if past == [] then [] else
    var last := past[|past| - 1];
    Pick(past[..|past| - 1], topics, after) + if last.sequence > after && last.context.topic in topics then [last] else []
  }

  /** Everything ever published on `topics` in (after, through]. */
  ghost function Window(past: seq<Record>, topics: set<Topic>, after: nat, through: nat): seq<Record>
    requires through <= |past|
  {
    Pick(past[..through], topics, after)
  }

  ghost predicate Numbered(past: seq<Record>) {
    forall i :: 0 <= i < |past| ==> past[i].sequence == i + 1
  }

  predicate Admissible(workspace: Id32, r: Record) {
    && r.context.workspace == workspace
    && 0 < |r.ciphertext| <= MAX_APPLICATION_CIPHERTEXT
    && (r.context.sequence.Some? ==> r.context.sequence.value == r.sequence)
  }

  ghost predicate TopicFaithful(held: History, t: Topic, past: seq<Record>) {
    && held.evictedThrough <= |past|
    && held.records == Pick(past, {t}, held.evictedThrough)
    && (held.evictedThrough != 0 ==> past[held.evictedThrough - 1].context.topic == t)
    && (held.evictedThrough == 0 ==> held.records != [])
  }

  predicate Kept(log: Log, r: Record) {
    r.context.topic in log.topics && r.sequence > log.topics[r.context.topic].evictedThrough
  }

  ghost predicate DistinctIds(log: Log, past: seq<Record>) {
    forall i, j :: 0 <= i < j < |past| && Kept(log, past[i]) && Kept(log, past[j]) ==> past[i].context.id != past[j].context.id
  }

  ghost predicate TopicsFaithful(topics: map<Topic, History>, past: seq<Record>) {
    forall t :: t in topics ==> TopicFaithful(topics[t], t, past)
  }

  ghost predicate AllAdmissible(log: Log, past: seq<Record>) {
    forall i :: 0 <= i < |past| ==> Admissible(log.workspace, past[i]) && past[i].context.topic in log.topics
  }

  /** The bounded state is a true account of everything ever appended. */
  ghost predicate Faithful(log: Log, past: seq<Record>) {
    && |past| == log.head
    && Numbered(past)
    && AllAdmissible(log, past)
    && TopicsFaithful(log.topics, past)
    && |log.topics| <= MAX_TOPICS
    && DistinctIds(log, past)
    && Accounted(log)
  }

  predicate Bounded(log: Log) {
    log.bytes <= MAX_RETAINED_BYTES && forall t :: t in log.topics ==> |log.topics[t].records| <= MAX_PACKETS_PER_TOPIC
  }

  /** Every state some run of appends and evictions can be in. */
  ghost predicate Reached(log: Log, past: seq<Record>) {
    Faithful(log, past) && Bounded(log)
  }

  /** `hi` has only forgotten more than `lo`, and says so. */
  predicate Raised(lo: Log, hi: Log) {
    && hi.(topics := lo.topics, bytes := lo.bytes) == lo
    && hi.topics.Keys == lo.topics.Keys
    && forall t :: t in lo.topics ==> lo.topics[t].evictedThrough <= hi.topics[t].evictedThrough
  }

  // Facts of these predicates, for proofs that keep them closed.

  lemma ReachedFaithful(log: Log, past: seq<Record>)
    requires Reached(log, past)
    ensures Faithful(log, past)
  {
  }

  lemma FaithfulNumbered(log: Log, past: seq<Record>)
    requires Faithful(log, past)
    ensures |past| == log.head && Numbered(past)
  {
  }

  lemma RaisedReflexive(log: Log)
    ensures Raised(log, log)
  {
  }

  // ------------------------------------------------------------ lemmas on Pick

  lemma {:induction false} PickMember(past: seq<Record>, topics: set<Topic>, after: nat, r: Record)
    ensures r in Pick(past, topics, after) <==> r in past && r.context.topic in topics && r.sequence > after
  {
    if past != [] {
      PickMember(past[..|past| - 1], topics, after, r);
      assert past == past[..|past| - 1] + [past[|past| - 1]];
    }
  }

  lemma {:induction false} PickAscends(past: seq<Record>, topics: set<Topic>, after: nat)
    requires Numbered(past)
    ensures StrictlyBy((r: Record) => r.sequence, Pick(past, topics, after))
    ensures forall r :: r in Pick(past, topics, after) ==> after < r.sequence <= |past|
  {
    if past != [] {
      PickAscends(past[..|past| - 1], topics, after);
    }
  }

  lemma PickExtend(past: seq<Record>, r: Record, topics: set<Topic>, after: nat)
    ensures Pick(past + [r], topics, after)
         == Pick(past, topics, after) + if r.sequence > after && r.context.topic in topics then [r] else []
  {
    assert (past + [r])[..|past|] == past;
  }

  /** Raising the watermark to the first held record drops just that record. */
  lemma {:induction false} PickDropFirst(past: seq<Record>, topics: set<Topic>, after: nat)
    requires Numbered(past) && Pick(past, topics, after) != []
    ensures var held := Pick(past, topics, after); Pick(past, topics, held[0].sequence) == held[1..]
  {
    var front, last := past[..|past| - 1], past[|past| - 1];
    var held := Pick(front, topics, after);
    if held == [] {
      PickNone(front, topics, last.sequence);
    } else {
      PickAscends(front, topics, after);
      PickDropFirst(front, topics, after);
      assert held[0] in held;
      var tail := if last.sequence > after && last.context.topic in topics then [last] else [];
      assert Pick(past, topics, after) == held + tail;
      assert (held + tail)[1..] == held[1..] + tail;
    }
  }

  lemma {:induction false} PickNone(past: seq<Record>, topics: set<Topic>, after: nat)
    requires Numbered(past) && |past| <= after
    ensures Pick(past, topics, after) == []
  {
    if past != [] { PickNone(past[..|past| - 1], topics, after); }
  }

  function Within(rs: seq<Record>, after: nat, through: nat): seq<Record> {
    if rs == [] then [] else
    Within(rs[..|rs| - 1], after, through) + if after < rs[|rs| - 1].sequence <= through then [rs[|rs| - 1]] else []
  }

  lemma WithinExtend(rs: seq<Record>, r: Record, after: nat, through: nat)
    ensures Within(rs + [r], after, through) == Within(rs, after, through) + if after < r.sequence <= through then [r] else []
  {
    assert (rs + [r])[..|rs|] == rs;
  }

  /** Filtering what a topic still holds gives the window of the full past, as
      long as the range starts at or above the watermark. */
  lemma {:induction false} WithinIsWindow(past: seq<Record>, topics: set<Topic>, evicted: nat, after: nat, through: nat)
    requires Numbered(past) && evicted <= after && through <= |past|
    ensures Within(Pick(past, topics, evicted), after, through) == Window(past, topics, after, through)
  {
    if |past| == through {
      assert past[..through] == past;
      WithinAll(past, topics, evicted, after, through);
    } else {
      hide Pick, Within;
      var front, last := past[..|past| - 1], past[|past| - 1];
      assert past == front + [last] && front[..through] == past[..through];
      WithinIsWindow(front, topics, evicted, after, through);
      WithinPick(front, last, topics, evicted, after, through);
    }
  }

  lemma {:induction false} WithinAll(past: seq<Record>, topics: set<Topic>, evicted: nat, after: nat, through: nat)
    requires Numbered(past) && evicted <= after && |past| <= through
    ensures Within(Pick(past, topics, evicted), after, through) == Pick(past, topics, after)
  {
    if past != [] {
      hide Pick, Within;
      var front, last := past[..|past| - 1], past[|past| - 1];
      assert past == front + [last];
      WithinAll(front, topics, evicted, after, through);
      WithinPick(front, last, topics, evicted, after, through);
      PickExtend(front, last, topics, after);
    }
  }

  lemma WithinPick(front: seq<Record>, last: Record, topics: set<Topic>, evicted: nat, after: nat, through: nat)
    requires evicted <= after
    ensures Within(Pick(front + [last], topics, evicted), after, through)
         == Within(Pick(front, topics, evicted), after, through)
            + if after < last.sequence <= through && last.context.topic in topics then [last] else []
  {
    hide Pick, Within;
    var held := Pick(front, topics, evicted);
    PickExtend(front, last, topics, evicted);
    WithinExtend(held, last, after, through);
    assert held + [] == held;
  }

  lemma {:induction false} PickUnion(past: seq<Record>, a: set<Topic>, b: set<Topic>, after: nat)
    requires a !! b
    ensures multiset(Pick(past, a + b, after)) == multiset(Pick(past, a, after)) + multiset(Pick(past, b, after))
  {
    if past != [] { PickUnion(past[..|past| - 1], a, b, after); }
  }

  lemma {:induction false} PickLength(past: seq<Record>, topics: set<Topic>, after: nat)
    requires Numbered(past)
    ensures |Pick(past, topics, after)| <= if after < |past| then |past| - after else 0
  {
    if past != [] { PickLength(past[..|past| - 1], topics, after); }
  }

  lemma {:induction false} PickSubset(past: seq<Record>, a: set<Topic>, b: set<Topic>, after: nat)
    requires a <= b
    ensures |Pick(past, a, after)| <= |Pick(past, b, after)|
  {
    if past != [] { PickSubset(past[..|past| - 1], a, b, after); }
  }

  // -------------------------------------- every operation stays faithful

  /** What a topic holds and what the past still counts as kept agree. */
  lemma HeldIsKept(log: Log, past: seq<Record>, r: Record)
    requires Faithful(log, past)
    ensures (r in past && Kept(log, r)) <==> (r.context.topic in log.topics && r in log.topics[r.context.topic].records)
  {
    if r.context.topic in log.topics {
      PickMember(past, {r.context.topic}, log.topics[r.context.topic].evictedThrough, r);
    }
  }

  lemma HeldFront(held: History, t: Topic, past: seq<Record>)
    requires Numbered(past) && TopicFaithful(held, t, past) && held.records != []
    ensures var first := held.records[0];
            && first.context.topic == t && first.sequence > held.evictedThrough
            && 1 <= first.sequence <= |past| && past[first.sequence - 1] == first
  {
    PickMember(past, {t}, held.evictedThrough, held.records[0]);
    var i :| 0 <= i < |past| && past[i] == held.records[0];
  }

  lemma EvictedFaithful(held: History, t: Topic, past: seq<Record>)
    requires Numbered(past) && TopicFaithful(held, t, past) && held.records != []
    ensures TopicFaithful(History(held.records[0].sequence, held.records[1..]), t, past)
  {
    HeldFront(held, t, past);
    PickDropFirst(past, {t}, held.evictedThrough);
  }

  lemma RaisedDistinct(log: Log, next: Log, past: seq<Record>)
    requires DistinctIds(log, past) && Raised(log, next)
    ensures DistinctIds(next, past)
  {
    forall i, j | 0 <= i < j < |past| && Kept(next, past[i]) && Kept(next, past[j])
      ensures past[i].context.id != past[j].context.id
    {
      assert Kept(log, past[i]) && Kept(log, past[j]);
    }
  }

  lemma EvictRaises(log: Log, past: seq<Record>, t: Topic)
    requires Numbered(past) && TopicsFaithful(log.topics, past) && Holds(log, t)
    requires Weight(log.topics[t].records[0]) <= log.bytes
    ensures TopicsFaithful(Evict(log, t).topics, past) && Raised(log, Evict(log, t))
  {
    hide Pick, Weight;
    assert TopicFaithful(log.topics[t], t, past);
    HeldFront(log.topics[t], t, past);
    EvictedFaithful(log.topics[t], t, past);
    hide TopicFaithful;
    assert Evict(log, t).topics.Keys == log.topics.Keys;
  }

  lemma EvictFaithful(log: Log, past: seq<Record>, t: Topic)
    requires Faithful(log, past) && Holds(log, t)
    ensures Weight(log.topics[t].records[0]) <= log.bytes
    ensures Faithful(Evict(log, t), past) && Raised(log, Evict(log, t))
    ensures Evict(log, t).bytes < log.bytes
  {
    hide TopicsFaithful, Accounted, Weight, DistinctIds;
    EvictAccounted(log, t);
    EvictRaises(log, past, t);
    RaisedDistinct(log, Evict(log, t), past);
  }

  lemma RaisedTransitive(a: Log, b: Log, c: Log)
    requires Raised(a, b) && Raised(b, c)
    ensures Raised(a, c)
  {
  }

  lemma PushedFaithful(held: History, t: Topic, past: seq<Record>, r: Record)
    requires r.sequence == |past| + 1
    requires TopicFaithful(held, t, past)
    ensures r.context.topic != t ==> TopicFaithful(held, t, past + [r])
    ensures r.context.topic == t ==> TopicFaithful(held.(records := held.records + [r]), t, past + [r])
  {
    PickExtend(past, r, {t}, held.evictedThrough);
  }

  lemma FirstFaithful(t: Topic, past: seq<Record>, r: Record)
    requires r.sequence == |past| + 1 && r.context.topic == t
    requires forall i :: 0 <= i < |past| ==> past[i].context.topic != t
    ensures TopicFaithful(History(0, [r]), t, past + [r])
  {
    PickExtend(past, r, {t}, 0);
    PickUnseen(past, t);
  }

  lemma FaithfulDistinct(log: Log, past: seq<Record>)
    requires Faithful(log, past)
    ensures DistinctIds(log, past) && forall i :: 0 <= i < |past| ==> past[i].context.topic in log.topics
  {
  }

  lemma PushDistinct(log: Log, past: seq<Record>, r: Record)
    requires Faithful(log, past) && !HoldsId(log, r.context.id)
    ensures DistinctIds(Push(log, r), past + [r])
  {
    hide Faithful, Weight, Pick;
    FaithfulDistinct(log, past);
    var next, more := Push(log, r), past + [r];
    forall i, j | 0 <= i < j < |more| && Kept(next, more[i]) && Kept(next, more[j])
      ensures more[i].context.id != more[j].context.id
    {
      assert more[i] == past[i] && Kept(log, past[i]);
      if j == |past| { HeldIsKept(log, past, past[i]); }
    }
  }

  lemma PushTopics(log: Log, past: seq<Record>, r: Record)
    requires r.sequence == |past| + 1
    requires AllAdmissible(log, past) && TopicsFaithful(log.topics, past)
    ensures TopicsFaithful(Push(log, r).topics, past + [r])
  {
    hide TopicFaithful;
    var next := Push(log, r);
    assert [] + [r] == [r];
    forall t | t in next.topics ensures TopicFaithful(next.topics[t], t, past + [r]) {
      if t in log.topics { PushedFaithful(log.topics[t], t, past, r); } else { FirstFaithful(t, past, r); }
    }
  }

  lemma PushFaithful(log: Log, past: seq<Record>, c: Context, ciphertext: seq<byte>)
    requires Faithful(log, past) && Refusal(log, c, ciphertext).None?
    ensures Faithful(Push(log, NewRecord(log, c, ciphertext)), past + [NewRecord(log, c, ciphertext)])
  {
    hide TopicsFaithful, DistinctIds, Accounted, Weight, HoldsId;
    var r := NewRecord(log, c, ciphertext);
    PushAccounted(log, r);
    PushDistinct(log, past, r);
    PushTopics(log, past, r);
    assert Push(log, r).topics.Keys == log.topics.Keys + {c.topic};
  }

  lemma {:induction false} PickUnseen(past: seq<Record>, t: Topic)
    requires forall i :: 0 <= i < |past| ==> past[i].context.topic != t
    ensures Pick(past, {t}, 0) == []
  {
    if past != [] { PickUnseen(past[..|past| - 1], t); }
  }

  lemma OnlyNewest(held: History, t: Topic, past: seq<Record>)
    requires Numbered(past) && TopicFaithful(held, t, past) && held.records != [] && past != []
    requires held.records[0] == past[|past| - 1]
    ensures held.records == [past[|past| - 1]]
  {
    PickDropFirst(past, {t}, held.evictedThrough);
    PickNone(past, {t}, |past|);
    assert held.records == [held.records[0]] + held.records[1..];
  }

  lemma OthersAreEmpty(log: Log, past: seq<Record>, t: Topic)
    requires Numbered(past) && past != [] && Oldest(log, t) && log.topics[t].records[0] == past[|past| - 1]
    requires TopicsFaithful(log.topics, past)
    ensures forall u :: u in log.topics && u != t ==> log.topics[u].records == []
  {
    hide Pick;
    HeldFront(log.topics[t], t, past);
    forall u | u in log.topics && u != t ensures log.topics[u].records == [] {
      if Holds(log, u) { HeldFront(log.topics[u], u, past); }
    }
  }

  /** While the newest record is within the budget, the oldest front is never
      that record: there is always something older to give up. */
  lemma OldestIsNotNewest(log: Log, past: seq<Record>, t: Topic)
    requires Faithful(log, past) && log.bytes > MAX_RETAINED_BYTES && past != []
    requires Weight(past[|past| - 1]) <= MAX_RETAINED_BYTES
    requires Oldest(log, t)
    ensures log.topics[t].records[0] != past[|past| - 1]
  {
    hide Pick;
    var newest := past[|past| - 1];
    if log.topics[t].records[0] == newest {
      OthersAreEmpty(log, past, t);
      OnlyNewest(log.topics[t], t, past);
      assert Weights([newest]) == Weight(newest);
      MapSumTake(Loads(log.topics), t);
      NothingHeldWeighsNothing(Loads(log.topics) - {t});
    }
  }

  lemma FrontOfLog(log: Log, past: seq<Record>, t: Topic)
    requires Faithful(log, past) && Holds(log, t)
    ensures var first := log.topics[t].records[0];
            && first.context.topic == t && 1 <= first.sequence <= |past| && past[first.sequence - 1] == first
    ensures Numbered(past)
  {
    hide Pick, DistinctIds;
    HeldFront(log.topics[t], t, past);
  }

  /** One turn of the eviction loop. */
  lemma ShrinkStep(log: Log, past: seq<Record>, t: Topic)
    requires Faithful(log, past) && log.bytes > MAX_RETAINED_BYTES
    requires past != [] && Weight(past[|past| - 1]) <= MAX_RETAINED_BYTES
    requires Oldest(log, t)
    ensures Weight(log.topics[t].records[0]) <= log.bytes
    ensures var next := Evict(log, t);
            && Faithful(next, past) && Raised(log, next) && next.bytes < log.bytes
            && (Kept(log, past[|past| - 1]) ==> Kept(next, past[|past| - 1]))
            && forall u :: u in log.topics ==> |next.topics[u].records| <= |log.topics[u].records|
  {
    hide Faithful, Accounted, Weight, Raised;
    EvictFaithful(log, past, t);
    OldestIsNotNewest(log, past, t);
    FrontOfLog(log, past, t);
  }

  /** The loop of `append` ends within budget, never fails its assertion, never
      touches the head and never evicts the record just added. */
  lemma {:induction false} ShrinkFaithful(log: Log, past: seq<Record>)
    requires Faithful(log, past)
    requires past != [] && Weight(past[|past| - 1]) <= MAX_RETAINED_BYTES
    ensures Faithful(Shrink(log), past) && Raised(log, Shrink(log))
    ensures Shrink(log).bytes <= MAX_RETAINED_BYTES
    ensures Kept(log, past[|past| - 1]) ==> Kept(Shrink(log), past[|past| - 1])
    ensures forall t :: t in log.topics ==> |Shrink(log).topics[t].records| <= |log.topics[t].records|
    decreases log.bytes
  {
    hide Pick, TopicFaithful, DistinctIds;
    if log.bytes > MAX_RETAINED_BYTES {
      WeightIsHeld(log);
      var t := OldestTopic(log);
      ShrinkStep(log, past, t);
      var next := Evict(log, t);
      ShrinkFaithful(next, past);
      RaisedTransitive(log, next, Shrink(next));
    }
  }

  /** Nothing still kept is older than the oldest front. */
  lemma OldestCovers(log: Log, past: seq<Record>, t: Topic, j: nat)
    requires Faithful(log, past) && Oldest(log, t) && j < |past| && Kept(log, past[j])
    ensures log.topics[t].records[0].sequence <= j + 1
  {
    hide Pick, DistinctIds, Accounted;
    var r := past[j];
    var u := r.context.topic;
    HeldIsKept(log, past, r);
    PickAscends(past, {u}, log.topics[u].evictedThrough);
    assert Holds(log, u);
    var k :| 0 <= k < |log.topics[u].records| && log.topics[u].records[k] == r;
  }

  /** A turn of the loop gives up the oldest kept record and no other. */
  lemma EvictTakesOldest(log: Log, past: seq<Record>, t: Topic, j: nat)
    requires Faithful(log, past) && Oldest(log, t) && j < |past| && Weight(log.topics[t].records[0]) <= log.bytes
    ensures Kept(Evict(log, t), past[j]) <==> Kept(log, past[j]) && j + 1 != log.topics[t].records[0].sequence
  {
    hide Faithful, Weight, Oldest;
    assert Holds(log, t) by { OldestHolds(log, t); }
    FrontOfLog(log, past, t);
    if Kept(log, past[j]) { OldestCovers(log, past, t, j); }
    EvictFaithful(log, past, t);
    FrontKept(log, past, t);
  }

  lemma OldestHolds(log: Log, t: Topic)
    requires Oldest(log, t)
    ensures Holds(log, t)
  {
  }

  lemma FrontKept(log: Log, past: seq<Record>, t: Topic)
    requires Faithful(log, past) && Holds(log, t)
    ensures Kept(log, log.topics[t].records[0])
  {
    hide Pick, DistinctIds, Accounted;
    HeldFront(log.topics[t], t, past);
  }

  /** The loop gives up the oldest records first, and none it could have kept
      within the budget. */
  lemma {:induction false} ShrinkOldestFirst(log: Log, past: seq<Record>)
    requires Faithful(log, past)
    ensures forall i, j :: 0 <= i < |past| && 0 <= j < |past| && Kept(log, past[i]) && !Kept(Shrink(log), past[i]) && Kept(Shrink(log), past[j]) ==> i < j
    ensures forall j :: 0 <= j < |past| && Kept(Shrink(log), past[j]) ==> Kept(log, past[j])
    ensures Shrink(log) != log ==>
              exists i :: 0 <= i < |past| && Kept(log, past[i]) && !Kept(Shrink(log), past[i]) && Shrink(log).bytes + Weight(past[i]) > MAX_RETAINED_BYTES
    decreases log.bytes
  {
    hide Faithful, Weight, Kept, Oldest, Accounted, Raised;
    FaithfulAccounted(log, past);
    if log.bytes > MAX_RETAINED_BYTES {
      WeightIsHeld(log);
      var t := OldestTopic(log);
      OldestHolds(log, t);
      EvictFaithful(log, past, t);
      FrontOfLog(log, past, t);
      var n := log.topics[t].records[0].sequence - 1;
      var next := Evict(log, t);
      FrontKept(log, past, t);
      forall j | 0 <= j < |past| ensures Kept(next, past[j]) <==> Kept(log, past[j]) && j != n { EvictTakesOldest(log, past, t, j); }
      forall j | 0 <= j < |past| && Kept(log, past[j]) ensures n <= j { OldestCovers(log, past, t, j); }
      FaithfulAccounted(next, past);
      ShrinkOldestFirst(next, past);
      if Shrink(next) == next {
        assert Kept(log, past[n]) && !Kept(next, past[n]) && next.bytes + Weight(past[n]) == log.bytes;
      }
    }
  }

  lemma FaithfulAccounted(log: Log, past: seq<Record>)
    requires Faithful(log, past)
    ensures Accounted(log)
  {
  }

  lemma FrontIsOlder(log: Log, past: seq<Record>, t: Topic)
    requires Faithful(log, past) && t in log.topics && |log.topics[t].records| > 1
    ensures log.topics[t].records[0].sequence < |past|
  {
    hide Pick, DistinctIds;
    var held := log.topics[t];
    PickAscends(past, {t}, held.evictedThrough);
    assert held.records[1] in held.records;
  }

  lemma WatermarkBelowHead(log: Log, past: seq<Record>, t: Topic)
    requires Faithful(log, past) && Holds(log, t)
    ensures log.topics[t].evictedThrough < |past|
  {
    hide Pick, DistinctIds;
    HeldFront(log.topics[t], t, past);
  }

  lemma CappedLengths(log: Log, r: Record)
    requires Accounted(log) && Bounded(log)
    ensures forall t :: t in Capped(log, r).topics ==> |Capped(log, r).topics[t].records| <= MAX_PACKETS_PER_TOPIC
  {
    hide Accounted, Weight;
  }

  lemma RefusalBound(log: Log, c: Context, ciphertext: seq<byte>)
    requires Refusal(log, c, ciphertext).None?
    ensures log.head < U64_MAX
  {
  }

  lemma CappedCases(log: Log, r: Record)
    requires Accounted(log)
    ensures var pushed, t := Push(log, r), r.context.topic;
            && Holds(pushed, t)
            && (|pushed.topics[t].records| <= MAX_PACKETS_PER_TOPIC ==> Capped(log, r) == pushed)
            && (|pushed.topics[t].records| > MAX_PACKETS_PER_TOPIC ==> Weight(pushed.topics[t].records[0]) <= pushed.bytes && Capped(log, r) == Evict(pushed, t))
  {
    hide Accounted, Weight, Evict;
    PushAccounted(log, r);
    EvictAccounted(Push(log, r), r.context.topic);
  }

  lemma CappedFaithful(log: Log, past: seq<Record>, c: Context, ciphertext: seq<byte>)
    requires Reached(log, past) && Refusal(log, c, ciphertext).None?
    ensures var r := NewRecord(log, c, ciphertext);
            var next := Capped(log, r);
            Faithful(next, past + [r]) && Raised(Push(log, r), next) && Kept(next, r)
  {
    hide Faithful, Bounded, Accounted, Refusal, Weight, Capped, Push;
    FaithfulNumbered(log, past);
    FaithfulAccounted(log, past);
    RefusalBound(log, c, ciphertext);
    var r := NewRecord(log, c, ciphertext);
    var more := past + [r];
    var pushed := Push(log, r);
    PushFaithful(log, past, c, ciphertext);
    CappedCases(log, r);
    RaisedReflexive(pushed);
    if |pushed.topics[c.topic].records| > MAX_PACKETS_PER_TOPIC {
      EvictFaithful(pushed, more, c.topic);
      FrontIsOlder(pushed, more, c.topic);
    }
    WatermarkBelowHead(pushed, more, c.topic);
  }

  /** Appending extends the past by exactly the new record, which stays held;
      every bound holds again; watermarks only rise; the head moves by one. */
  lemma AppendReached(log: Log, past: seq<Record>, c: Context, ciphertext: seq<byte>)
    requires Reached(log, past)
    requires Append(log, c, ciphertext).Ok?
    ensures var next := Append(log, c, ciphertext).value;
            var r := NewRecord(log, c, ciphertext);
            && Reached(next, past + [r])
            && Kept(next, r) && r in next.topics[c.topic].records
            && next.head == log.head + 1
            && Raised(Push(log, r), next)
  {
    var r := NewRecord(log, c, ciphertext);
    var more := past + [r];
    var capped := Capped(log, r);
    CappedFaithful(log, past, c, ciphertext);
    CappedLengths(log, r);
    assert more[|more| - 1] == r;
    ShrinkFaithful(capped, more);
    RaisedTransitive(Push(log, r), capped, Shrink(capped));
    HeldIsKept(Shrink(capped), more, r);
  }

  /** When an append is accepted, exactly: the publication is of this workspace and
      of an admissible size, its topic is known or there is room for another,
      nothing still held has its id, the numbers are not used up, and the number
      it claims, if any, is the next one. */
  lemma AppendExactly(log: Log, past: seq<Record>, c: Context, ciphertext: seq<byte>)
    requires Reached(log, past)
    ensures Append(log, c, ciphertext).Ok? <==>
              && c.workspace == log.workspace && 0 < |ciphertext| <= MAX_APPLICATION_CIPHERTEXT
              && (c.topic in log.topics || |log.topics| < MAX_TOPICS)
              && (forall i :: 0 <= i < |past| && Kept(log, past[i]) ==> past[i].context.id != c.id)
              && |past| < U64_MAX && (c.sequence.None? || c.sequence.value == |past| + 1)
  {
    hide Shrink, Capped, HoldsId, Faithful, Bounded, Kept;
    FaithfulNumbered(log, past);
    FaithfulAccounted(log, past);
    TopicBound(log, past);
    HeldIds(log, past, c.id);
  }

  lemma TopicBound(log: Log, past: seq<Record>)
    requires Faithful(log, past)
    ensures |log.topics| <= MAX_TOPICS
  {
  }

  lemma HeldIds(log: Log, past: seq<Record>, id: Id16)
    requires Faithful(log, past)
    ensures HoldsId(log, id) <==> exists i :: 0 <= i < |past| && Kept(log, past[i]) && past[i].context.id == id
  {
    hide Faithful, Kept;
    if HoldsId(log, id) {
      var t, r :| t in log.topics && r in log.topics[t].records && r.context.id == id;
      HeldTopic(log, past, t, r);
      HeldIsKept(log, past, r);
      var i :| 0 <= i < |past| && past[i] == r;
    }
    if i :| 0 <= i < |past| && Kept(log, past[i]) && past[i].context.id == id { HeldIsKept(log, past, past[i]); }
  }

  lemma HeldTopic(log: Log, past: seq<Record>, t: Topic, r: Record)
    requires Faithful(log, past) && t in log.topics && r in log.topics[t].records
    ensures r.context.topic == t
  {
    hide Pick, DistinctIds, Accounted;
    PickMember(past, {t}, log.topics[t].evictedThrough, r);
  }

  /** A new index has an empty past. */
  lemma EmptyReached(workspace: Id32, author: Id32, epoch: u64)
    ensures Reached(Empty(workspace, author, epoch), [])
  {
    assert Loads(Empty(workspace, author, epoch).topics) == map[];
  }
}
