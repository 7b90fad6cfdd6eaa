/** Per-audience direct streams: what is retained, which numbers are missing,
    and how a gap is skipped. Models `DirectStream`, `retain_direct`,
    `next_direct_gap`, `skip_direct_gap` and `stage_direct_head` of
    crates/arachne-delivery/src/inbox.rs on one stream at a time. */
module Direct {
  import opened Bytes
  import opened Ordering
  import opened Publication
  import opened Retention

  const WINDOW: nat := 32
  const MAX_DIRECT_STREAMS: nat := 256
  const MAX_DIRECT_RETAINED_BYTES: nat := 128 * 1024

  datatype DirectRecord = DirectRecord(revision: u64, id: Id16, sequence: u64, body: seq<byte>)

  /** What identifies a stream: its author, policy revision, topic, recipients. */
  datatype Audience = Audience(author: Id32, revision: u64, topic: Topic, recipients: seq<Id32>)

  datatype DirectStream = DirectStream(audience: Audience, floor: u64, recoveryFloor: u64, knownHead: u64, records: seq<DirectRecord>)

  function Min(a: u64, b: u64): u64 { if a < b then a else b }

  /** `saturating_add`. */
  function Saturating(a: u64, n: nat): u64 { if a + n <= U64_MAX then a + n else U64_MAX }

  function Base(s: DirectStream): u64 { Max(s.floor, s.recoveryFloor) }

  /** `effective_head`. */
  function Head(s: DirectStream): u64 {
    Max(s.knownHead, if s.records == [] then Base(s) else s.records[|s.records| - 1].sequence)
  }

  function Ordinal(): DirectRecord -> int { (r: DirectRecord) => r.sequence }

  /** Records are kept in strictly increasing order of their numbers. */
  ghost predicate Ordered(s: DirectStream) { StrictlyBy(Ordinal(), s.records) }

  predicate Carries(records: seq<DirectRecord>, n: int) { exists r :: r in records && r.sequence == n }

  predicate Retains(s: DirectStream, n: int) { Carries(s.records, n) }

  // ---------------------------------------------------------------------- gaps

  /** Where the running `expected` ends: the first number not continued, and the
      first record beyond it. */
  datatype Scan = Scan(expected: u64, next: Option<u64>)

  function Scanned(records: seq<DirectRecord>, expected: u64): (r: Result<Scan>)
    ensures r.Ok? ==> expected <= r.value.expected && (r.value.next.Some? ==> r.value.expected < r.value.next.value)
  {
    if records == [] then Ok(Scan(expected, None)) else
    if records[0].sequence > expected then Ok(Scan(expected, Some(records[0].sequence))) else
    if records[0].sequence == expected then
      if expected == U64_MAX then Err(SequenceExhausted) else Scanned(records[1..], expected + 1)
    else Scanned(records[1..], expected)
  }

  /** Where the running `expected` starts. */
  function Start(s: DirectStream): u64 { Saturating(Base(s), 1) }

  datatype Gap = Gap(after: u64, through: u64)

  function GapOf(s: DirectStream): Result<Option<Gap>> {
    var scan :- Scanned(s.records, Start(s));
    var after := scan.expected - 1;
    if scan.next.Some? then Ok(Some(Gap(after, Min(scan.next.value, Saturating(after, MAX_RECOVERY_PACKETS)))))
    else if Head(s) >= scan.expected then Ok(Some(Gap(after, Min(Head(s), Saturating(after, MAX_RECOVERY_PACKETS)))))
    else Ok(None)
  }

  /** `skip_direct_gap` on its stream: the new recovery floor and the number of
      publications given up. */
  function Skipped(s: DirectStream, query: Gap): Result<(DirectStream, u64)> {
    var scan :- Scanned(s.records, Start(s));
    var after := scan.expected - 1;
    var advertised := if scan.next.Some? then scan.next.value else Head(s);
    if advertised < scan.expected then Err(GapGone) else
    var through := Min(advertised, Saturating(after, MAX_RECOVERY_PACKETS));
    if query.after != after || query.through != through then Err(GapChanged) else
    var present := scan.next == Some(through);
    Ok((s.(recoveryFloor := if present then through - 1 else through), through - scan.expected + if present then 0 else 1))
  }

  /** The scan as the source runs it. */
  method ScanRecords(records: seq<DirectRecord>, start: u64) returns (r: Result<Scan>)
    ensures r == Scanned(records, start)
  {
    var expected := start;
    var i := 0;
    while i < |records|
      invariant i <= |records|
      invariant Scanned(records[i..], expected) == Scanned(records, start)
    {
      assert records[i..][0] == records[i] && records[i..][1..] == records[i + 1..];
      if records[i].sequence > expected { return Ok(Scan(expected, Some(records[i].sequence))); }
      if records[i].sequence == expected {
        if expected == U64_MAX { return Err(SequenceExhausted); }
        expected := expected + 1;
      }
      i := i + 1;
    }
    r := Ok(Scan(expected, None));
  }

  // ------------------------------------------------ what a reported gap means

  /** The scan stops at the first number not retained, and names the next one
      that is. */
  ghost predicate Stops(records: seq<DirectRecord>, expected: u64, scan: Scan) {
    && expected <= scan.expected
    && (forall n :: expected <= n < scan.expected ==> Carries(records, n))
    && !Carries(records, scan.expected)
    && (scan.next.Some? ==> scan.next.value > scan.expected && Carries(records, scan.next.value)
                            && forall n :: scan.expected < n < scan.next.value ==> !Carries(records, n))
    && (scan.next.None? ==> forall n :: n > scan.expected ==> !Carries(records, n))
  }

  /** Every number from `expected` to the largest is retained. */
  ghost predicate FullFrom(records: seq<DirectRecord>, expected: u64) {
    forall n :: expected <= n <= U64_MAX ==> Carries(records, n)
  }

  /** The scan fails exactly when there is no first number that is not retained. */
  lemma {:induction false} ScanMeans(records: seq<DirectRecord>, expected: u64)
    requires StrictlyBy(Ordinal(), records)
    ensures Scanned(records, expected).Err? <==> FullFrom(records, expected)
    ensures Scanned(records, expected).Ok? ==> Stops(records, expected, Scanned(records, expected).value)
  {
    hide Carries, Stops;
    if records == [] {
      StopsAtEnd(expected);
      assert !Carries([], expected) by { NothingCarried(expected); }
    } else {
      var first, rest := records[0], records[1..];
      assert records == [first] + rest;
      assert forall r :: r in rest ==> Ordinal()(first) < Ordinal()(r);
      CarriesCons(first, rest, records);
      LaterCarried(first, rest);
      if first.sequence > expected {
        StopsHere(first, rest, records, expected);
        assert !Carries(records, expected);
      } else if first.sequence < expected || expected < U64_MAX {
        var onward := if first.sequence == expected then expected + 1 else expected;
        ScanMeans(rest, onward);
        if Scanned(rest, onward).Ok? { StopsLater(first, rest, records, expected, onward, Scanned(rest, onward).value); }
        if FullFrom(records, expected) { FullTail(first, rest, records, expected, onward); }
      }
    }
  }

  lemma FullTail(first: DirectRecord, rest: seq<DirectRecord>, records: seq<DirectRecord>, expected: u64, onward: u64)
    requires records == [first] + rest && first.sequence <= expected && FullFrom(records, expected)
    requires onward == if first.sequence == expected && expected < U64_MAX then expected + 1 else expected
    requires first.sequence < expected || expected < U64_MAX
    ensures FullFrom(rest, onward)
  {
    CarriesCons(first, rest, records);
    hide Carries;
  }

  lemma NothingCarried(n: int)
    ensures !Carries([], n)
  {
  }

  lemma StopsAtEnd(expected: u64)
    ensures Stops([], expected, Scan(expected, None))
  {
  }

  lemma StopsHere(first: DirectRecord, rest: seq<DirectRecord>, records: seq<DirectRecord>, expected: u64)
    requires records == [first] + rest && first.sequence > expected
    requires forall r :: r in rest ==> first.sequence < r.sequence
    ensures Stops(records, expected, Scan(expected, Some(first.sequence)))
  {
    CarriesCons(first, rest, records);
    LaterCarried(first, rest);
    hide Carries;
  }

  lemma StopsLater(first: DirectRecord, rest: seq<DirectRecord>, records: seq<DirectRecord>, expected: u64, onward: u64, scan: Scan)
    requires records == [first] + rest && first.sequence <= expected
    requires onward == (if first.sequence == expected then expected + 1 else expected) && Stops(rest, onward, scan)
    ensures Stops(records, expected, scan)
  {
    CarriesCons(first, rest, records);
    hide Carries;
  }

  lemma LaterCarried(first: DirectRecord, rest: seq<DirectRecord>)
    requires forall r :: r in rest ==> first.sequence < r.sequence
    ensures forall n :: Carries(rest, n) ==> first.sequence < n
  {
  }

  lemma CarriesCons(first: DirectRecord, rest: seq<DirectRecord>, records: seq<DirectRecord>)
    requires records == [first] + rest
    ensures forall n :: Carries(records, n) <==> n == first.sequence || Carries(rest, n)
  {
    forall n ensures Carries(records, n) <==> n == first.sequence || Carries(rest, n) {
      assert forall r :: r in records <==> r == first || r in rest;
      if n == first.sequence { assert first in records; }
      if Carries(rest, n) { var r :| r in rest && r.sequence == n; assert r in records; }
    }
  }

  lemma RecordsBelowHead(s: DirectStream)
    requires Ordered(s)
    ensures forall r :: r in s.records ==> r.sequence <= Head(s)
    ensures s.records != [] ==> Base(s) <= Head(s) || s.records[|s.records| - 1].sequence <= Head(s)
  {
    forall r | r in s.records ensures r.sequence <= Head(s) {
      var i :| 0 <= i < |s.records| && s.records[i] == r;
      assert i == |s.records| - 1 || Ordinal()(s.records[i]) < Ordinal()(s.records[|s.records| - 1]);
    }
  }

  lemma ScanOfStream(s: DirectStream)
    requires Ordered(s)
    ensures var scan := Scanned(s.records, Start(s));
            && (scan.Err? <==> FullFrom(s.records, Start(s)))
            && (scan.Ok? ==> Stops(s.records, Start(s), scan.value))
            && (scan.Ok? && scan.value.next.Some? ==> Retains(s, scan.value.next.value))
    ensures forall n :: Retains(s, n) ==> n <= Head(s)
  {
    RecordsBelowHead(s);
    ScanMeans(s.records, Start(s));
    HeadIsCarried(s);
  }

  /** Exactly when no gap is reported: every number up to the head is retained,
      and the head is below the largest number. At the largest number a gap, or
      an error, is reported whatever is retained. */
  lemma NoGapExactly(s: DirectStream)
    requires Ordered(s)
    ensures GapOf(s) == Ok(None) <==> Head(s) < U64_MAX && forall n :: Base(s) < n <= Head(s) ==> Retains(s, n)
  {
    hide Carries, Ordered, Scanned, Head, Base;
    ScanOfStream(s);
    if Head(s) < U64_MAX && (forall n :: Base(s) < n <= Head(s) ==> Retains(s, n)) {
      assert !Retains(s, U64_MAX);
      var scan := Scanned(s.records, Start(s));
      assert scan.Ok?;
      assert !Retains(s, scan.value.expected);
    }
  }

  /** What is reported, on any stream. A gap starts at the earliest missing number
      above both floors and reaches the next retained number or the head, at most
      32 numbers on; only a base at the largest number makes it a false one. An
      error is reported exactly when every number from the start to the largest
      is retained. */
  lemma GapMeans(s: DirectStream)
    requires Ordered(s)
    ensures GapOf(s).Err? <==> FullFrom(s.records, Start(s))
    ensures GapOf(s).Ok? && GapOf(s).value.Some? ==>
              var gap := GapOf(s).value.value;
              && gap.after < gap.through <= Head(s) && gap.through - gap.after <= MAX_RECOVERY_PACKETS
              && (forall n :: Base(s) < n <= gap.after ==> Retains(s, n))
              && (forall n :: gap.after < n < gap.through ==> !Retains(s, n))
              && (Retains(s, gap.through) || gap.through == gap.after + MAX_RECOVERY_PACKETS || gap.through == Head(s))
              && !Retains(s, gap.after + 1)
              && (if Base(s) < U64_MAX then Base(s) <= gap.after else gap == Gap(U64_MAX - 1, U64_MAX))
  {
    hide Carries, Ordered, Scanned, Head, Base, FullFrom;
    ScanOfStream(s);
    if GapOf(s).Ok? && GapOf(s).value.Some? { assert !Retains(s, GapOf(s).value.value.after + 1); }
  }

  lemma HeadIsCarried(s: DirectStream)
    requires forall r :: r in s.records ==> r.sequence <= Head(s)
    ensures forall n :: Retains(s, n) ==> n <= Head(s)
  {
  }

  function Missing(s: DirectStream, gap: Gap): set<int> {
    set n | gap.after < n <= gap.through && !Retains(s, n)
  }

  /** The numbers in (lo, hi]. */
  function Between(lo: int, hi: int): (r: set<int>)
    ensures forall n :: n in r <==> lo < n <= hi
    ensures |r| == if lo <= hi then hi - lo else 0
    decreases hi - lo
  {
    if lo >= hi then {} else Between(lo, hi - 1) + {hi}
  }

  lemma MissingSize(s: DirectStream, gap: Gap)
    requires gap.after < gap.through && forall n :: gap.after < n < gap.through ==> !Retains(s, n)
    ensures |Missing(s, gap)| == gap.through - gap.after - (if Retains(s, gap.through) then 1 else 0)
  {
    hide Retains, Between;
    if Retains(s, gap.through) {
      assert Missing(s, gap) == Between(gap.after, gap.through - 1);
    } else {
      assert Missing(s, gap) == Between(gap.after, gap.through);
    }
  }

  /** Skipping accepts exactly the reported gap. */
  lemma SkipIsGap(s: DirectStream, query: Gap)
    requires Ordered(s)
    ensures Skipped(s, query).Ok? <==> GapOf(s) == Ok(Some(query))
    ensures Skipped(s, query).Ok? ==>
              Skipped(s, query).value == (s.(recoveryFloor := if Retains(s, query.through) then query.through - 1 else query.through),
                                          query.through - query.after - if Retains(s, query.through) then 1 else 0)
  {
    hide Carries, Ordered, Scanned, Head, Base, FullFrom;
    ScanOfStream(s);
  }

  /** Skipping accepts exactly the reported gap, gives up exactly the numbers in
      it that have no retained record, and keeps the head and the records. Unless
      the base was already the largest number, it moves past every number given
      up; then, it moves nothing and the same gap is reported again. */
  lemma SkipExactly(s: DirectStream, query: Gap)
    requires Ordered(s)
    ensures Skipped(s, query).Ok? <==> GapOf(s) == Ok(Some(query))
    ensures Skipped(s, query).Ok? ==>
              var (next, count) := Skipped(s, query).value;
              && count == |Missing(s, query)|
              && next == s.(recoveryFloor := next.recoveryFloor) && Ordered(next) && Head(next) == Head(s)
              && (if Base(s) < U64_MAX
                  then && Base(s) <= query.after < Base(next) <= Head(s) && s.recoveryFloor < next.recoveryFloor
                       && forall n :: n in Missing(s, query) ==> n <= Base(next)
                  else Base(next) == U64_MAX && GapOf(next) == GapOf(s))
  {
    GapMeans(s);
    SkipIsGap(s, query);
    hide Carries, Skipped, FullFrom;
    if Skipped(s, query).Ok? {
      MissingSize(s, query);
      SkippedHead(s, if Retains(s, query.through) then query.through - 1 else query.through);
    }
  }

  lemma SkippedHead(s: DirectStream, floor: u64)
    requires Base(s) < floor <= Head(s) || Base(s) == Head(s) == floor
    ensures Head(s.(recoveryFloor := floor)) == Head(s) && Base(s.(recoveryFloor := floor)) == floor
  {
  }

  /** After a skip the next gap, if any, starts strictly later, unless the one
      skipped was the very last number. */
  lemma SkipAdvances(s: DirectStream, query: Gap)
    requires Ordered(s) && Skipped(s, query).Ok?
    ensures var next := GapOf(Skipped(s, query).value.0);
            next.Ok? && next.value.Some? ==> (next.value.value.after > query.after <==> query.after < U64_MAX - 1)
  {
    SkipIsGap(s, query);
    GapMeans(s);
    hide Skipped, GapOf, FullFrom, Carries, Missing;
    SkipExactly(s, query);
    GapMeans(Skipped(s, query).value.0);
    if query.after == U64_MAX - 1 { LastSkipped(s, query); }
  }

  lemma LastSkipped(s: DirectStream, query: Gap)
    requires Ordered(s) && Skipped(s, query).Ok? && query.after == U64_MAX - 1
    ensures Base(Skipped(s, query).value.0) == U64_MAX
  {
    SkipIsGap(s, query);
    GapMeans(s);
    hide Skipped, GapOf, FullFrom, Carries;
  }

  /** One round of reporting and skipping; nothing reported, nothing changes. */
  function Round(s: DirectStream): DirectStream {
    match GapOf(s)
    case Ok(Some(gap)) => if Skipped(s, gap).Ok? then Skipped(s, gap).value.0 else s
    case _ => s
  }

  function Rounds(s: DirectStream, n: nat): DirectStream
    decreases n
  {
    if n == 0 then s else Rounds(Round(s), n - 1)
  }

  lemma {:induction false} RoundsKeep(s: DirectStream, n: nat)
    requires Ordered(s)
    ensures var end := Rounds(s, n); Ordered(end) && Head(end) == Head(s) && end.records == s.records && end.audience == s.audience
    decreases n
  {
    hide Ordered, Head, GapOf, Skipped, Missing, Base;
    if n > 0 {
      if GapOf(s).Ok? && GapOf(s).value.Some? { SkipExactly(s, GapOf(s).value.value); }
      RoundsKeep(Round(s), n - 1);
    }
  }

  lemma {:induction false} RoundsRest(s: DirectStream, n: nat)
    requires GapOf(s) == Ok(None)
    ensures Rounds(s, n) == s
    decreases n
  {
    hide GapOf;
    if n > 0 { RoundsRest(s, n - 1); }
  }

  lemma {:induction false} RoundsSettle(s: DirectStream, n: nat)
    requires Ordered(s) && Head(s) < U64_MAX && Head(s) - Base(s) <= n
    ensures GapOf(Rounds(s, n)) == Ok(None)
    decreases n
  {
    hide Ordered, Head, Skipped, Missing, Base, Carries, GapOf;
    GapMeans(s);
    NoGapExactly(s);
    if GapOf(s) == Ok(None) {
      RoundsRest(s, n);
    } else {
      assert GapOf(s).Ok? by { NotFull(s); }
      SkipExactly(s, GapOf(s).value.value);
      if n > 0 { RoundsSettle(Round(s), n - 1); }
    }
  }

  lemma NotFull(s: DirectStream)
    requires Ordered(s) && Head(s) < U64_MAX
    ensures !FullFrom(s.records, Start(s))
  {
    hide Carries, Head, Scanned;
    ScanOfStream(s);
    assert !Retains(s, U64_MAX);
  }

  /** Repeated skips keep the head and every record, and end with no gap if and
      only if the head is below the largest number. */
  lemma SettlesExactly(s: DirectStream)
    requires Ordered(s)
    ensures Head(s) < U64_MAX <==> exists n: nat :: GapOf(Rounds(s, n)) == Ok(None)
    ensures forall n: nat :: Head(Rounds(s, n)) == Head(s) && Rounds(s, n).records == s.records
  {
    hide Ordered, Head, GapOf, Rounds, Base;
    forall n: nat ensures Head(Rounds(s, n)) == Head(s) && Rounds(s, n).records == s.records { RoundsKeep(s, n); }
    if Head(s) < U64_MAX {
      var n: nat := if Head(s) > Base(s) then Head(s) - Base(s) else 0;
      RoundsSettle(s, n);
    } else {
      forall n: nat ensures GapOf(Rounds(s, n)) != Ok(None) { RoundsKeep(s, n); NoGapExactly(Rounds(s, n)); }
    }
  }
}
