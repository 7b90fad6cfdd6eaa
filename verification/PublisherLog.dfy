/** The publisher's index as the object the host updates in place. Models
    `PublisherLog` of crates/arachne-delivery/src/lib.rs: each method is proved
    against the value functions of Retention, Selection and Snapshot, and
    against the ghost record of everything ever appended. */
module PublisherIndex {
  import opened Bytes
  import opened Ordering
  import opened Publication
  import opened Retention
  import opened Selection
  import opened Snapshot

  class PublisherLog {
    const workspace: Id32
    const author: Id32
    const epoch: u64
    var head: u64
    var bytes: nat
    var topics: map<Topic, History>
    /** Everything ever appended; never evicted. */
    ghost var past: seq<Record>

    function State(): Log
      reads this
    {
      Log(workspace, author, epoch, head, bytes, topics)
    }

    ghost predicate Valid()
      reads this
    {
      Reached(State(), past)
    }

    constructor (workspace: Id32, author: Id32, epoch: u64)
      ensures Valid() && State() == Retention.Empty(workspace, author, epoch) && past == []
    {
      this.workspace, this.author, this.epoch := workspace, author, epoch;
      head, bytes, topics, past := 0, 0, map[], [];
      new;
      EmptyReached(workspace, author, epoch);
    }

    /** A copy to stage with, as the host's clone. */
    constructor Clone(from: PublisherLog)
      ensures State() == from.State() && past == from.past
    {
      workspace, author, epoch := from.workspace, from.author, from.epoch;
      head, bytes, topics, past := from.head, from.bytes, from.topics, from.past;
    }

    method Evict(t: Topic)
      requires Holds(State(), t) && Weight(topics[t].records[0]) <= bytes
      modifies this`bytes, this`topics
      ensures State() == Retention.Evict(old(State()), t)
    {
      var first := topics[t].records[0];
      topics := topics[t := History(first.sequence, topics[t].records[1..])];
      bytes := bytes - Weight(first);
    }

    /** Evict the record with the smallest number held anywhere, if any. */
    method EvictOldest() returns (evicted: bool)
      requires Faithful(State(), past)
      modifies this`bytes, this`topics
      ensures evicted <==> exists t :: Holds(old(State()), t)
      ensures !evicted ==> State() == old(State())
      ensures evicted ==> Accounted(old(State())) && Weight(old(State()).topics[OldestTopic(old(State()))].records[0]) <= old(bytes)
                          && State() == Retention.Evict(old(State()), OldestTopic(old(State())))
      ensures Faithful(State(), past) && Raised(old(State()), State())
      ensures evicted ==> bytes < old(bytes)
    {
      hide Faithful, Raised, Accounted, Weight, Retention.Evict, Oldest;
      ghost var before := State();
      if exists t :: t in topics && Holds(State(), t) {
        assert Oldest(before, OldestTopic(before)) && OldestTopic(before) in topics;
        var t: Topic :| t in topics && Oldest(State(), t);
        OldestUnique(before, past, t, OldestTopic(before));
        EvictFaithful(before, past, t);
        ReachedAccounted(before, past);
        Evict(t);
        evicted := true;
      } else {
        RaisedReflexive(before);
        evicted := false;
      }
    }

    /** Append one publication, evicting as needed: afterwards the past is the
        old past and this record, and the bounded state still tells the truth
        about all of it. */
    method Append(c: Context, ciphertext: seq<byte>) returns (r: Result<u64>)
      requires Valid()
      modifies this
      ensures Valid()
      ensures Accounted(old(State()))
      ensures r.Err? ==> Refusal(old(State()), c, ciphertext) == Some(r.error) && State() == old(State()) && past == old(past)
      ensures r.Ok? ==> r.value == old(head) + 1 && Retention.Append(old(State()), c, ciphertext) == Ok(State())
                        && past == old(past) + [Record(r.value, c, ciphertext)]
    {
      hide Reached, Faithful, Accounted, Weight, Shrink, Capped, Retention.Push, Retention.Evict, Refusal, Retention.Append, Raised, Kept;
      ghost var before, history := State(), past;
      ReachedFaithful(before, past);
      ReachedAccounted(before, past);
      var refusal := Check(c, ciphertext);
      if refusal.Some? { return Err(refusal.value); }
      RefusalBound(before, c, ciphertext);
      var sequence := head + 1;
      ghost var record := NewRecord(before, c, ciphertext);
      AppendIs(before, c, ciphertext);
      AppendReached(before, past, c, ciphertext);
      Insert(Record(sequence, c, ciphertext));
      past := past + [record];
      CappedFaithful(before, history, c, ciphertext);
      ghost var capped := State();
      while bytes > MAX_RETAINED_BYTES
        invariant past == history + [record]
        invariant Faithful(State(), past) && Accounted(State())
        invariant Shrink(State()) == Shrink(capped)
        decreases bytes
      {
        WeightIsHeld(State());
        ShrinkTurn(State());
        var evicted := EvictOldest();
        assert evicted;
        ReachedAccounted(State(), past);
      }
      ShrinkDone(State());
      r := Ok(sequence);
    }

    /** The record goes in and its own topic is brought back within 32. */
    method Insert(r: Record)
      requires Accounted(State())
      modifies this`head, this`bytes, this`topics
      ensures State() == Capped(old(State()), r)
    {
      hide Accounted, Weight;
      ghost var before := State();
      PushAccounted(before, r);
      Push(r);
      if |topics[r.context.topic].records| > MAX_PACKETS_PER_TOPIC {
        EvictAccounted(State(), r.context.topic);
        Evict(r.context.topic);
      }
    }

    method Check(c: Context, ciphertext: seq<byte>) returns (refusal: Option<Error>)
      ensures refusal == Refusal(State(), c, ciphertext)
    {
      if c.workspace != workspace || |ciphertext| == 0 || |ciphertext| > MAX_APPLICATION_CIPHERTEXT { return Some(InvalidPublication); }
      if c.topic !in topics && |topics| == MAX_TOPICS { return Some(TopicLimit); }
      if HoldsId(State(), c.id) { return Some(AlreadyRetained); }
      if head == U64_MAX { return Some(SequenceExhausted); }
      if c.sequence.Some? && c.sequence.value != head + 1 { return Some(SequenceMismatch); }
      return None;
    }

    method Push(r: Record)
      modifies this`head, this`bytes, this`topics
      ensures State() == Retention.Push(old(State()), r)
    {
      bytes := bytes + Weight(r);
      var held := if r.context.topic in topics then topics[r.context.topic] else History(0, []);
      topics := topics[r.context.topic := held.(records := held.records + [r])];
      head := r.sequence;
    }

    /** The window of the past, or a refusal that never passes for an answer. */
    method Select(after: u64, through: u64, selected: set<Topic>) returns (r: Range)
      requires Valid()
      ensures r == Selection.Select(State(), after, through, selected)
      ensures r.Found? ==> through <= |past| && r.records == Window(past, selected, after, through)
    {
      hide Reached, Faithful, Within, SortBy, Window, Listed, Less, Intact;
      ReachedFaithful(State(), past);
      FaithfulNumbered(State(), past);
      SelectExactly(State(), past, after, through, selected);
      if after >= through || through > head || selected == {} || |selected| > MAX_TOPICS { return Refused(Invalid); }
      var keys := Listed(selected);
      var records := [];
      var i := 0;
      while i < |keys|
        invariant i <= |keys|
        invariant Collect(State(), after, through, keys[i..], records) == Collect(State(), after, through, keys, [])
      {
        assert keys[i..][0] == keys[i] && keys[i..][1..] == keys[i + 1..];
        if keys[i] in topics {
          var held := topics[keys[i]];
          if after < held.evictedThrough { return Refused(Unavailable); }
          records := records + Within(held.records, after, through);
          if |records| > MAX_RECOVERY_PACKETS { return Refused(TooLarge); }
        }
        i := i + 1;
      }
      r := Found(SortBy(BySequence(), records));
    }

    /** The snapshot, written field by field into one buffer. */
    method WriteSnapshot() returns (buffer: seq<byte>)
      ensures buffer == Encode(State())
    {
      var sequenced := AnySequenced(topics);
      var keys := Listed(topics.Keys);
      buffer := Magic(sequenced) + workspace + author + U64Bytes(epoch) + U64Bytes(head) + U16Bytes(|topics|);
      HeaderWritten(State());
      hide Encode, AnySequenced, Listed, Less, TopicsBytes, U64Bytes, U16Bytes;
      assert buffer + TopicsBytes(keys, topics, sequenced) == Encode(State());
      buffer := WriteTopics(buffer, keys, topics, sequenced);
    }
  }

  const BUNDLE_MAGIC: seq<byte> := [68, 70, 79, 73, 1]

  /** `snapshot_with_publisher`: a copy of the index gives up its oldest records
      until it fits beside the inbox; the live index is left alone. */
  method SaveBeside(live: PublisherLog, inbox: seq<byte>) returns (r: Result<seq<byte>>)
    requires live.Valid()
    ensures Accounted(live.State())
    ensures Narrow(live.State(), |inbox|).Err? ==> r == Err(ExceedsBound)
    ensures Narrow(live.State(), |inbox|).Ok? ==>
              var log := Encode(Narrow(live.State(), |inbox|).value);
              r == Ok(BUNDLE_MAGIC + U32Bytes(|log|) + log + inbox) && |r.value| <= MAX_WORKSPACE_ATTACHMENT
  {
    hide Reached, Faithful, Accounted, Narrow, Encode, Raised, Retention.Evict;
    ReachedFaithful(live.State(), live.past);
    ReachedAccounted(live.State(), live.past);
    var kept := new PublisherLog.Clone(live);
    var log := kept.WriteSnapshot();
    while 9 + |log| + |inbox| > MAX_WORKSPACE_ATTACHMENT
      invariant Faithful(kept.State(), kept.past) && Accounted(kept.State())
      invariant log == Encode(kept.State())
      invariant Narrow(kept.State(), |inbox|) == Narrow(live.State(), |inbox|)
      decreases kept.bytes
    {
      NarrowTurn(kept.State(), |inbox|);
      var evicted := kept.EvictOldest();
      if !evicted { return Err(ExceedsBound); }
      ReachedAccounted(kept.State(), kept.past);
      log := kept.WriteSnapshot();
    }
    NarrowDone(kept.State(), |inbox|);
    r := Ok(BUNDLE_MAGIC + U32Bytes(|log|) + log + inbox);
  }

  // ------------------------------------------------------------------- restore

  /** The reading loop over the records of one topic. */
  method ReadHeld(begun: Reader, scope: Scope, t: Topic, evicted: u64, count: nat) returns (r: Result<(Reader, History)>)
    ensures r == ReadRecords(begun, scope, t, History(evicted, []), count)
  {
    hide ReadRecord;
    var at, held := begun, History(evicted, []);
    var i := 0;
    while i < count
      invariant i <= count
      invariant ReadRecords(at, scope, t, held, count - i) == ReadRecords(begun, scope, t, History(evicted, []), count)
    {
      var step := ReadRecord(at, scope, t, held);
      if step.Err? { return Err(step.error); }
      at, held := step.value.0, step.value.1;
      i := i + 1;
    }
    r := Ok((at, held));
  }

  /** `restore`: a cursor advances through the bytes, every field is checked as
      it is read, and only a snapshot read to its end yields an index. */
  method Restore(workspace: Id32, author: Id32, epoch: u64, bytes: seq<byte>) returns (r: Result<Log>)
    ensures r == Decode(workspace, author, epoch, bytes)
    ensures forall log, past | Reached(log, past) && (log.workspace, log.author, log.epoch) == (workspace, author, epoch)
              && bytes == Encode(log) :: r == Ok(log)
  {
    hide ReadFront, ReadRecords, ReadHeader, Encode, Reached;
    forall log, past | Reached(log, past) && (log.workspace, log.author, log.epoch) == (workspace, author, epoch) && bytes == Encode(log)
      ensures Decode(workspace, author, epoch, bytes) == Ok(log)
    {
      RoundTrip(log, past);
    }
    var header := ReadHeader(workspace, author, epoch, bytes);
    if header.Err? { return Err(header.error); }
    var (scope, count, input) := header.value;
    var at := Start(input);
    var i := 0;
    while i < count
      invariant i <= count
      invariant ReadTopics(at, scope, count - i) == ReadTopics(Start(input), scope, count)
    {
      var front := ReadFront(at, scope);
      if front.Err? { return Err(front.error); }
      var (begun, t, evicted, held) := front.value;
      var records := ReadHeld(begun, scope, t, evicted, held);
      if records.Err? { return Err(records.error); }
      if records.value.1.records == [] && evicted == 0 { return Err(UnobservedTopic); }
      at := records.value.0.(topics := records.value.0.topics[t := records.value.1]);
      i := i + 1;
    }
    if at.input != [] || at.highest != scope.head { return Err(InvalidHead); }
    r := Ok(Log(workspace, author, epoch, scope.head, at.bytes, at.topics));
  }

  lemma HeaderWritten(log: Log)
    ensures var sequenced := AnySequenced(log.topics);
            Magic(sequenced) + log.workspace + log.author + U64Bytes(log.epoch) + U64Bytes(log.head) + U16Bytes(|log.topics|)
              + TopicsBytes(Listed(log.topics.Keys), log.topics, sequenced)
            == Encode(log)
  {
    hide AnySequenced, Listed, TopicsBytes, U64Bytes, U16Bytes;
  }

  method WriteTopics(start: seq<byte>, keys: seq<Topic>, topics: map<Topic, History>, sequenced: bool) returns (buffer: seq<byte>)
    requires forall t :: t in keys ==> t in topics
    ensures buffer == start + TopicsBytes(keys, topics, sequenced)
  {
    hide TopicsBytes, RecordsBytes, HistoryBytes, Weights, ListedWeight;
    buffer := start;
    assert keys[0..] == keys;
    var i := 0;
    while i < |keys|
      invariant i <= |keys|
      invariant buffer + TopicsBytes(keys[i..], topics, sequenced) == start + TopicsBytes(keys, topics, sequenced)
    {
      TopicsUnfold(keys, i, topics, sequenced);
      buffer := WriteHistory(buffer, keys[i], topics[keys[i]], sequenced, TopicsBytes(keys[i + 1..], topics, sequenced));
      i := i + 1;
    }
    NoTopicsLeft(topics, sequenced, keys);
    assert buffer + [] == buffer;
  }

  method WriteHistory(start: seq<byte>, t: Topic, held: History, sequenced: bool, ghost rest: seq<byte>) returns (buffer: seq<byte>)
    ensures buffer + rest == start + HistoryBytes(t, held, sequenced, rest)
  {
    hide RecordsBytes, HistoryBytes, RecordBytes, Weight, Weights;
    buffer := WriteFront(start, t, held, sequenced, rest);
    assert held.records[0..] == held.records;
    var j := 0;
    while j < |held.records|
      invariant j <= |held.records|
      invariant buffer + RecordsBytes(held.records[j..], sequenced, rest) == start + HistoryBytes(t, held, sequenced, rest)
    {
      RecordsUnfold(held.records, j, sequenced, rest);
      buffer := WriteRecord(buffer, held.records[j], sequenced, RecordsBytes(held.records[j + 1..], sequenced, rest));
      j := j + 1;
    }
    NoRecordsLeft(held.records, sequenced, rest);
  }

  lemma NoRecordsLeft(rs: seq<Record>, sequenced: bool, rest: seq<byte>)
    ensures RecordsBytes(rs[|rs|..], sequenced, rest) == rest
  {
  }

  lemma NoTopicsLeft(topics: map<Topic, History>, sequenced: bool, keys: seq<Topic>)
    requires forall t :: t in keys ==> t in topics
    ensures TopicsBytes(keys[|keys|..], topics, sequenced) == []
  {
  }

  method WriteFront(buffer: seq<byte>, t: Topic, held: History, sequenced: bool, ghost rest: seq<byte>) returns (next: seq<byte>)
    ensures next + RecordsBytes(held.records, sequenced, rest) == buffer + HistoryBytes(t, held, sequenced, rest)
  {
    hide U64Bytes, U16Bytes, TopicBytes, RecordsBytes;
    next := buffer + TopicBytes(t) + U64Bytes(held.evictedThrough) + U16Bytes(|held.records|);
  }

  lemma AppendIs(log: Log, c: Context, ciphertext: seq<byte>)
    requires Accounted(log) && Refusal(log, c, ciphertext).None?
    ensures log.head < U64_MAX
    ensures Retention.Append(log, c, ciphertext) == Ok(Shrink(Capped(log, NewRecord(log, c, ciphertext))))
  {
  }

  lemma ShrinkTurn(log: Log)
    requires Accounted(log) && log.bytes > MAX_RETAINED_BYTES
    requires exists t :: Holds(log, t)
    ensures Weight(log.topics[OldestTopic(log)].records[0]) <= log.bytes
    ensures Accounted(Retention.Evict(log, OldestTopic(log)))
    ensures Shrink(log) == Shrink(Retention.Evict(log, OldestTopic(log)))
  {
    EvictAccounted(log, OldestTopic(log));
  }

  lemma ShrinkDone(log: Log)
    requires Accounted(log) && log.bytes <= MAX_RETAINED_BYTES
    ensures Shrink(log) == log
  {
  }

  method WriteRecord(buffer: seq<byte>, r: Record, sequenced: bool, ghost rest: seq<byte>) returns (next: seq<byte>)
    ensures next + rest == buffer + RecordBytes(r, sequenced, rest)
  {
    hide U64Bytes, U32Bytes, Mark;
    next := buffer + U64Bytes(r.sequence) + Mark(r, sequenced) + U64Bytes(r.context.revision) + r.context.id
            + U32Bytes(|r.ciphertext|) + r.ciphertext;
  }

  lemma OldestUnique(log: Log, past: seq<Record>, t: Topic, u: Topic)
    requires Faithful(log, past) && Oldest(log, t) && Oldest(log, u)
    ensures t == u
  {
    hide Faithful;
    FrontOfLog(log, past, t);
    FrontOfLog(log, past, u);
  }
}
