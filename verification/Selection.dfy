/** Range selection over the bounded index, measured against everything ever
    appended. Models `select`, the cutoff floor and paging of
    crates/arachne-delivery/src/lib.rs and crates/arachne-delivery/src/wire.rs. */
module Selection {
  import opened Bytes
  import opened Ordering
  import opened Publication
  import opened Retention

  datatype RangeError = Invalid | Unavailable | Empty | TooLarge
  datatype Range = Found(records: seq<Record>) | Refused(error: RangeError)

  /** An ordered set of topics, as its iterator lists it. */
  function Listed(topics: set<Topic>): (r: seq<Topic>)
    ensures Increasing<seq<byte>>(Less, r) && |r| == |topics|
    ensures forall t :: t in r <==> t in topics
  {
    LessIsTotalOrder();
    var r := Ascending<seq<byte>>(Less, topics);
    assert forall i :: 0 <= i < |r| ==> r[i] in topics;
    r
  }

  /** The loop over the selected topics, in order. */
  function Collect(log: Log, after: u64, through: u64, topics: seq<Topic>, found: seq<Record>): Range {
    if topics == [] then Found(found) else
    if topics[0] !in log.topics then Collect(log, after, through, topics[1..], found) else
    var held := log.topics[topics[0]];
    if after < held.evictedThrough then Refused(Unavailable) else
    var more := found + Within(held.records, after, through);
    if |more| > MAX_RECOVERY_PACKETS then Refused(TooLarge) else
    Collect(log, after, through, topics[1..], more)
  }

  function BySequence(): Record -> int { (r: Record) => r.sequence }

  function Select(log: Log, after: u64, through: u64, topics: set<Topic>): Range {
    if after >= through || through > log.head || topics == {} || |topics| > MAX_TOPICS then Refused(Invalid) else
    match Collect(log, after, through, Listed(topics), [])
    case Found(records) => Found(SortBy(BySequence(), records))
    case refused => refused
  }

  // ------------------------------------------------ completeness of a selection

  function Elements(topics: seq<Topic>): set<Topic> {
    set t | t in topics
  }

  predicate Distinct(topics: seq<Topic>) {
    forall i, j :: 0 <= i < j < |topics| ==> topics[i] != topics[j]
  }

  lemma ListedDistinct(topics: set<Topic>)
    ensures Distinct(Listed(topics)) && Elements(Listed(topics)) == topics
  {
    LessIsTotalOrder();
  }

  /** No selected topic has lost anything above `after`. */
  predicate Intact(log: Log, after: nat, topics: set<Topic>) {
    forall t :: t in topics && t in log.topics ==> log.topics[t].evictedThrough <= after
  }

  lemma {:induction false} WindowUnseen(log: Log, past: seq<Record>, t: Topic, after: nat, through: nat)
    requires AllAdmissible(log, past) && t !in log.topics && through <= |past|
    ensures Window(past, {t}, after, through) == []
    decreases through
  {
    if through > 0 {
      WindowUnseen(log, past, t, after, through - 1);
      assert past[..through][..through - 1] == past[..through - 1];
    }
  }

  /** What one topic contributes to a range is its share of the past. */
  lemma TopicShare(log: Log, past: seq<Record>, t: Topic, after: nat, through: nat)
    requires Faithful(log, past) && through <= |past| && Intact(log, after, {t})
    ensures Window(past, {t}, after, through)
         == if t in log.topics then Within(log.topics[t].records, after, through) else []
  {
    hide Pick, DistinctIds, Within, Accounted;
    if t in log.topics {
      assert TopicFaithful(log.topics[t], t, past);
      WithinIsWindow(past, {t}, log.topics[t].evictedThrough, after, through);
    } else {
      WindowUnseen(log, past, t, after, through);
    }
  }

  lemma WindowSplit(past: seq<Record>, topics: seq<Topic>, after: nat, through: nat)
    requires topics != [] && Distinct(topics) && through <= |past|
    ensures multiset(Window(past, Elements(topics), after, through))
         == multiset(Window(past, {topics[0]}, after, through)) + multiset(Window(past, Elements(topics[1..]), after, through))
    ensures Elements(topics) == {topics[0]} + Elements(topics[1..])
  {
    hide Pick;
    var rest := Elements(topics[1..]);
    assert topics == [topics[0]] + topics[1..];
    assert Elements(topics) == {topics[0]} + rest;
    assert topics[0] !in rest;
    PickUnion(past[..through], {topics[0]}, rest, after);
  }

  lemma {:induction false} WindowNothing(past: seq<Record>, after: nat)
    ensures Pick(past, {}, after) == []
  {
    if past != [] { WindowNothing(past[..|past| - 1], after); }
  }

  /** The collecting loop succeeds exactly when nothing selected was lost and
      the share is small enough, and then it holds that share. */
  lemma {:induction false} CollectExactly(log: Log, past: seq<Record>, after: u64, through: u64, topics: seq<Topic>, found: seq<Record>)
    requires Faithful(log, past) && through <= |past| && Distinct(topics) && |found| <= MAX_RECOVERY_PACKETS
    ensures var share := Window(past, Elements(topics), after, through);
            var result := Collect(log, after, through, topics, found);
            && (result.Found? <==> Intact(log, after, Elements(topics)) && |found| + |share| <= MAX_RECOVERY_PACKETS)
            && (result.Found? ==> multiset(result.records) == multiset(found) + multiset(share))
    decreases |topics|
  {
    hide Faithful, Window, Pick, Within;
    if topics == [] {
      NoTopicsNoWindow(past, after, through);
    } else {
      var t, rest := topics[0], topics[1..];
      WindowSplit(past, topics, after, through);
      MultisetSize(Window(past, Elements(topics), after, through), Window(past, {t}, after, through), Window(past, Elements(rest), after, through));
      if Intact(log, after, {t}) {
        TopicShare(log, past, t, after, through);
        var more := found + Window(past, {t}, after, through);
        assert t !in log.topics ==> more == found;
        if |more| <= MAX_RECOVERY_PACKETS {
          CollectExactly(log, past, after, through, rest, more);
        }
      }
    }
  }

  lemma NoTopicsNoWindow(past: seq<Record>, after: nat, through: nat)
    requires through <= |past|
    ensures Window(past, Elements([]), after, through) == []
  {
    assert Elements([]) == {};
    WindowNothing(past[..through], after);
  }

  lemma MultisetSize(whole: seq<Record>, a: seq<Record>, b: seq<Record>)
    requires multiset(whole) == multiset(a) + multiset(b)
    ensures |whole| == |a| + |b|
  {
    assert |multiset(whole)| == |multiset(a)| + |multiset(b)|;
  }

  /** Completeness of bounded history: whatever was evicted, a successful
      selection is exactly the window of everything ever appended, in order; and
      it succeeds exactly when the request is well formed, no selected topic
      lost anything above `after`, and the window is at most 32 records. */
  lemma SelectExactly(log: Log, past: seq<Record>, after: u64, through: u64, topics: set<Topic>)
    requires Faithful(log, past)
    ensures var result := Select(log, after, through, topics);
            && (result.Found? <==>
                 && after < through <= log.head && 0 < |topics| <= MAX_TOPICS
                 && Intact(log, after, topics)
                 && |Window(past, topics, after, through)| <= MAX_RECOVERY_PACKETS)
            && (result.Found? ==> result.records == Window(past, topics, after, through))
  {
    hide Faithful, Pick, Collect, SortBy, Listed, Distinct, Elements;
    FaithfulNumbered(log, past);
    if after < through <= log.head && topics != {} && |topics| <= MAX_TOPICS {
      ListedDistinct(topics);
      CollectExactly(log, past, after, through, Listed(topics), []);
      var result := Collect(log, after, through, Listed(topics), []);
      if result.Found? {
        PickAscends(past[..through], topics, after);
        SortedUnique(BySequence(), SortBy(BySequence(), result.records), Window(past, topics, after, through));
      }
    }
  }

  lemma {:induction false} CollectRefusal(log: Log, past: seq<Record>, after: u64, through: u64, topics: seq<Topic>, found: seq<Record>)
    requires Faithful(log, past) && through <= |past| && Distinct(topics) && |found| <= MAX_RECOVERY_PACKETS
    ensures var result := Collect(log, after, through, topics, found);
            result.Refused? ==>
              || (result.error == Unavailable && !Intact(log, after, Elements(topics)))
              || (result.error == TooLarge && |found| + |Window(past, Elements(topics), after, through)| > MAX_RECOVERY_PACKETS)
    decreases |topics|
  {
    hide Faithful, Window, Pick, Within;
    if topics != [] {
      var t, rest := topics[0], topics[1..];
      WindowSplit(past, topics, after, through);
      MultisetSize(Window(past, Elements(topics), after, through), Window(past, {t}, after, through), Window(past, Elements(rest), after, through));
      assert t in Elements(topics) && Elements(rest) <= Elements(topics);
      if Intact(log, after, {t}) {
        TopicShare(log, past, t, after, through);
        var more := found + Window(past, {t}, after, through);
        assert t !in log.topics ==> more == found;
        if |more| <= MAX_RECOVERY_PACKETS { CollectRefusal(log, past, after, through, rest, more); }
      }
    }
  }

  /** A refusal names a reason that applies: an ill-formed request, something lost
      above `after`, or a window of more than 32 records. */
  lemma SelectRefusal(log: Log, past: seq<Record>, after: u64, through: u64, topics: set<Topic>)
    requires Faithful(log, past) && Select(log, after, through, topics).Refused?
    ensures var error := Select(log, after, through, topics).error;
            var formed := after < through <= log.head && 0 < |topics| <= MAX_TOPICS;
            && (error == Invalid <==> !formed) && error != Empty
            && (error == Unavailable ==> !Intact(log, after, topics))
            && (error == TooLarge ==> through <= |past| && |Window(past, topics, after, through)| > MAX_RECOVERY_PACKETS)
  {
    hide Faithful, Pick, Collect, SortBy, Listed, Distinct, Elements, Intact;
    FaithfulNumbered(log, past);
    if after < through <= log.head && topics != {} && |topics| <= MAX_TOPICS {
      ListedDistinct(topics);
      CollectRefusal(log, past, after, through, Listed(topics), []);
    }
  }

  /** The window an author serves never changes as the author goes on. */
  lemma WindowStable(past: seq<Record>, later: seq<Record>, topics: set<Topic>, after: nat, through: nat)
    requires past <= later && through <= |past|
    ensures Window(past, topics, after, through) == Window(later, topics, after, through)
  {
    assert past[..through] == later[..through];
  }

  /** Forgetting more never changes an answer, it only withholds some. */
  lemma RaisedSelect(live: Log, saved: Log, past: seq<Record>, after: u64, through: u64, topics: set<Topic>)
    requires Faithful(live, past) && Faithful(saved, past) && Raised(live, saved)
    requires Select(saved, after, through, topics).Found?
    ensures Select(live, after, through, topics) == Select(saved, after, through, topics)
  {
    hide Faithful, Select, Window;
    SelectExactly(live, past, after, through, topics);
    SelectExactly(saved, past, after, through, topics);
  }

  // ------------------------------------------------------------------- paging

  /** `serve_cutoff`: the greatest watermark of the selected topics. */
  function Floor(log: Log, topics: seq<Topic>): nat {
    if topics == [] then 0 else
    var rest := Floor(log, topics[1..]);
    if topics[0] in log.topics && log.topics[topics[0]].evictedThrough > rest then log.topics[topics[0]].evictedThrough else rest
  }

  /** The floor is the least cursor from which nothing selected was lost. */
  lemma {:induction false} FloorIsLeastIntact(log: Log, topics: seq<Topic>, after: nat)
    ensures Floor(log, topics) <= after <==> Intact(log, after, Elements(topics))
  {
    if topics != [] {
      FloorIsLeastIntact(log, topics[1..], after);
      assert topics == [topics[0]] + topics[1..];
      assert Elements(topics) == {topics[0]} + Elements(topics[1..]);
    }
  }

  /** `serve_available_range`: the next window after a cursor. */
  function NextThrough(log: Log, after: u64): u64
    requires after < log.head
  {
    if after + MAX_RECOVERY_PACKETS <= log.head then after + MAX_RECOVERY_PACKETS else log.head
  }

  lemma WindowLength(past: seq<Record>, topics: set<Topic>, after: nat, through: nat)
    requires Numbered(past) && through <= |past|
    ensures |Window(past, topics, after, through)| <= if after < through then through - after else 0
  {
    PickLength(past[..through], topics, after);
  }

  /** From the floor upwards a page is always available. */
  lemma PageAvailable(log: Log, past: seq<Record>, after: u64, topics: set<Topic>)
    requires Faithful(log, past) && 0 < |topics| <= MAX_TOPICS && after < log.head
    requires Floor(log, Listed(topics)) <= after
    ensures Select(log, after, NextThrough(log, after), topics)
         == Found(Window(past, topics, after, NextThrough(log, after)))
  {
    assert |past| == log.head && Numbered(past);
    hide Faithful, Select, Window;
    ListedDistinct(topics);
    FloorIsLeastIntact(log, Listed(topics), after);
    WindowLength(past, topics, after, NextThrough(log, after));
    SelectExactly(log, past, after, NextThrough(log, after), topics);
  }

  /** A reader that pages from a cursor until it reaches the head, or None when
      some page is refused. */
  function Page(log: Log, after: u64, topics: set<Topic>): Option<seq<Record>>
    decreases log.head - after
  {
    if after >= log.head then Some([]) else
    match Select(log, after, NextThrough(log, after), topics)
    case Refused(_) => None
    case Found(records) =>
      match Page(log, NextThrough(log, after), topics)
      case None => None
      case Some(rest) => Some(records + rest)
  }

  lemma {:induction false} WindowSplitAt(past: seq<Record>, topics: set<Topic>, after: nat, middle: nat, through: nat)
    requires Numbered(past) && after <= middle <= through <= |past|
    ensures Window(past, topics, after, through) == Window(past, topics, after, middle) + Window(past, topics, middle, through)
    decreases through
  {
    if through == middle {
      PickNone(past[..middle], topics, middle);
    } else {
      hide Pick;
      WindowSplitAt(past, topics, after, middle, through - 1);
      var front, last := past[..through - 1], past[through - 1];
      assert past[..through] == front + [last];
      PickExtend(front, last, topics, after);
      PickExtend(front, last, topics, middle);
    }
  }

  /** Catch-up: from any cursor at or above the floor, paging is never refused,
      ends, and returns every selected publication above the cursor exactly
      once, in order. */
  lemma {:induction false} CatchUp(log: Log, past: seq<Record>, after: u64, topics: set<Topic>)
    requires Faithful(log, past) && 0 < |topics| <= MAX_TOPICS && after <= log.head
    requires Floor(log, Listed(topics)) <= after
    ensures Page(log, after, topics) == Some(Window(past, topics, after, log.head))
    decreases log.head - after
  {
    assert |past| == log.head && Numbered(past);
    hide Faithful, Select, Window, Floor;
    if after < log.head {
      var next := NextThrough(log, after);
      PageAvailable(log, past, after, topics);
      CatchUp(log, past, next, topics);
      WindowSplitAt(past, topics, after, next, log.head);
    } else {
      WindowLength(past, topics, after, log.head);
    }
  }
}
