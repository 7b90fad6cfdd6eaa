/** All direct streams together: retaining an object within the byte budget,
    finding the next gap and skipping it. Models `retain_direct`,
    `next_direct_sequence`, `next_direct_gap`, `skip_direct_gap` and
    `stage_direct_head` of crates/arachne-delivery/src/inbox.rs. */
module Streams {
  import opened Bytes
  import opened Ordering
  import opened Publication
  import opened Retention
  import opened Direct

  function Position(direct: seq<DirectStream>, a: Audience): (r: Option<nat>)
    ensures r.Some? ==> r.value < |direct| && direct[r.value].audience == a
    ensures r.None? ==> forall i :: 0 <= i < |direct| ==> direct[i].audience != a
  {
    if direct == [] then None else
    if direct[0].audience == a then Some(0) else
    match Position(direct[1..], a)
    case None => None
    case Some(i) => Some(i + 1)
  }

  ghost predicate UniqueAudiences(direct: seq<DirectStream>) {
    forall i, j :: 0 <= i < j < |direct| ==> direct[i].audience != direct[j].audience
  }

  // ------------------------------------------------------------------ one insert

  function FreshStream(a: Audience): DirectStream { DirectStream(a, 0, 0, 0, []) }

  predicate HasId(s: DirectStream, id: Id16) { exists r :: r in s.records && r.id == id }

  /** Push, sort by number, and drop the front beyond 32. */
  function Placed(s: DirectStream, r: DirectRecord): DirectStream {
    var records := SortBy(Ordinal(), s.records + [r]);
    var known := s.(records := records, knownHead := Max(s.knownHead, r.sequence));
    if |records| > WINDOW then known.(floor := records[0].sequence, records := records[1..]) else known
  }

  datatype Placing = Same | New(stream: DirectStream)

  /** What one object does to its stream. */
  function Inserted(s: DirectStream, r: DirectRecord): Result<Placing> {
    if Retains(s, r.sequence) then if r in s.records then Ok(Same) else Err(ConflictingIdentity)
    else if HasId(s, r.id) then Err(IdentityReused)
    else Ok(New(Placed(s, r)))
  }

  // -------------------------------------------------------------- byte eviction

  function ObjectBytes(records: seq<DirectRecord>): nat {
    if records == [] then 0 else |records[0].body| + ObjectBytes(records[1..])
  }

  /** `max_by_key` over streams that still hold records: the last of the largest. */
  function Heaviest(direct: seq<DirectStream>): (r: Option<nat>)
    ensures r.Some? ==> r.value < |direct| && direct[r.value].records != []
    ensures r.None? ==> forall i :: 0 <= i < |direct| ==> direct[i].records == []
    ensures r.Some? ==> forall i :: 0 <= i < |direct| && direct[i].records != [] ==>
                          && ObjectBytes(direct[i].records) <= ObjectBytes(direct[r.value].records)
                          && (i > r.value ==> ObjectBytes(direct[i].records) < ObjectBytes(direct[r.value].records))
  {
    if direct == [] then None else
    var last := |direct| - 1;
    var best := Heaviest(direct[..last]);
    if direct[last].records != [] && (best.None? || ObjectBytes(direct[best.value].records) <= ObjectBytes(direct[last].records))
    then Some(last) else best
  }

  function DropFirst(s: DirectStream): DirectStream
    requires s.records != []
  {
    s.(floor := Max(s.floor, s.records[0].sequence), records := s.records[1..])
  }

  function Total(direct: seq<DirectStream>): nat {
    if direct == [] then 0 else |direct[0].records| + Total(direct[1..])
  }

  lemma {:induction false} TotalUpdate(direct: seq<DirectStream>, i: nat, s: DirectStream)
    requires i < |direct|
    ensures Total(direct[i := s]) == Total(direct) - |direct[i].records| + |s.records|
  {
    if i > 0 {
      assert direct[i := s][1..] == direct[1..][i - 1 := s];
      TotalUpdate(direct[1..], i - 1, s);
    } else {
      assert direct[i := s][1..] == direct[1..];
    }
  }

  /** The eviction loop. `size` is the length of the encoded streams; that the
      loop ends comes from the number of records, whatever `size` is. */
  function Shrunk(size: seq<DirectStream> -> nat, direct: seq<DirectStream>): Result<seq<DirectStream>>
    decreases Total(direct)
  {
    if size(direct) <= MAX_DIRECT_RETAINED_BYTES then Ok(direct) else
    var i := Heaviest(direct);
    if i.None? then Err(CapacityExhausted) else
    TotalUpdate(direct, i.value, DropFirst(direct[i.value]));
    Shrunk(size, direct[i.value := DropFirst(direct[i.value])])
  }

  /** The streams after n evictions, each from the stream heaviest by then. */
  function Dropped(direct: seq<DirectStream>, n: nat): seq<DirectStream>
    decreases n
  {
    var i := Heaviest(direct);
    if n == 0 || i.None? then direct else Dropped(direct[i.value := DropFirst(direct[i.value])], n - 1)
  }

  lemma {:induction false} NothingHeld(direct: seq<DirectStream>)
    requires forall i :: 0 <= i < |direct| ==> direct[i].records == []
    ensures Total(direct) == 0
  {
    if direct != [] { NothingHeld(direct[1..]); }
  }

  /** The least number of evictions that brings the streams within the budget. */
  ghost predicate FirstFit(size: seq<DirectStream> -> nat, direct: seq<DirectStream>, n: nat) {
    && n <= Total(direct) && size(Dropped(direct, n)) <= MAX_DIRECT_RETAINED_BYTES
    && forall m :: 0 <= m < n ==> size(Dropped(direct, m)) > MAX_DIRECT_RETAINED_BYTES
  }

  /** The loop succeeds exactly when some number of evictions, at most all, brings
      the streams within the budget, and then it makes the least such number. */
  lemma {:induction false} ShrunkExactly(size: seq<DirectStream> -> nat, direct: seq<DirectStream>)
    ensures Shrunk(size, direct).Ok? <==> exists n: nat :: n <= Total(direct) && size(Dropped(direct, n)) <= MAX_DIRECT_RETAINED_BYTES
    ensures Shrunk(size, direct).Ok? ==> exists n: nat :: FirstFit(size, direct, n) && Shrunk(size, direct).value == Dropped(direct, n)
    decreases Total(direct)
  {
    hide Heaviest, ObjectBytes, Total, FirstFit;
    assert Dropped(direct, 0) == direct;
    if size(direct) <= MAX_DIRECT_RETAINED_BYTES {
      FitsAtOnce(size, direct);
    } else if Heaviest(direct).None? {
      NothingHeld(direct);
    } else {
      var i := Heaviest(direct).value;
      TotalUpdate(direct, i, DropFirst(direct[i]));
      var next := direct[i := DropFirst(direct[i])];
      ShrunkExactly(size, next);
      if n: nat :| n <= Total(direct) && size(Dropped(direct, n)) <= MAX_DIRECT_RETAINED_BYTES {
        var m: nat := n - 1;
        assert Dropped(direct, n) == Dropped(next, m);
        assert m <= Total(next) && size(Dropped(next, m)) <= MAX_DIRECT_RETAINED_BYTES;
      }
      if Shrunk(size, next).Ok? {
        var m: nat :| FirstFit(size, next, m) && Shrunk(size, next).value == Dropped(next, m);
        assert Dropped(direct, m + 1) == Dropped(next, m);
        FitsOneLater(size, direct, next, m);
      }
    }
  }

  lemma FitsAtOnce(size: seq<DirectStream> -> nat, direct: seq<DirectStream>)
    requires size(direct) <= MAX_DIRECT_RETAINED_BYTES
    ensures FirstFit(size, direct, 0) && Dropped(direct, 0) == direct
  {
  }

  lemma FitsOneLater(size: seq<DirectStream> -> nat, direct: seq<DirectStream>, next: seq<DirectStream>, m: nat)
    requires size(direct) > MAX_DIRECT_RETAINED_BYTES && Heaviest(direct).Some?
    requires next == direct[Heaviest(direct).value := DropFirst(direct[Heaviest(direct).value])] && Total(next) == Total(direct) - 1
    requires FirstFit(size, next, m)
    ensures FirstFit(size, direct, m + 1) && m + 1 <= Total(direct) && size(Dropped(direct, m + 1)) <= MAX_DIRECT_RETAINED_BYTES
  {
    hide Heaviest, Total;
    assert Dropped(direct, 0) == direct;
    forall k | 0 <= k < m + 1 ensures size(Dropped(direct, k)) > MAX_DIRECT_RETAINED_BYTES {
      if k > 0 { assert Dropped(direct, k) == Dropped(next, k - 1); }
    }
  }

  method ShrinkToBudget(size: seq<DirectStream> -> nat, start: seq<DirectStream>) returns (r: Result<seq<DirectStream>>)
    ensures r == Shrunk(size, start)
    ensures r.Ok? ==> size(r.value) <= MAX_DIRECT_RETAINED_BYTES
  {
    var direct := start;
    while size(direct) > MAX_DIRECT_RETAINED_BYTES
      invariant Shrunk(size, direct) == Shrunk(size, start)
      decreases Total(direct)
    {
      var i := Heaviest(direct);
      if i.None? { return Err(CapacityExhausted); }
      TotalUpdate(direct, i.value, DropFirst(direct[i.value]));
      direct := direct[i.value := DropFirst(direct[i.value])];
    }
    r := Ok(direct);
  }

  /** `retain_direct`. */
  function RetainDirect(size: seq<DirectStream> -> nat, direct: seq<DirectStream>, a: Audience, r: DirectRecord): Result<seq<DirectStream>> {
    var at := Position(direct, a);
    if at.None? && |direct| == MAX_DIRECT_STREAMS then Err(CapacityExhausted) else
    var begun := if at.Some? then direct else direct + [FreshStream(a)];
    var i := if at.Some? then at.value else |direct|;
    var placing :- Inserted(begun[i], r);
    if placing.Same? then Ok(begun) else Shrunk(size, begun[i := placing.stream])
  }

  /** An object is retained exactly when there is a stream for it, and it is
      already held there, or both its number and its id are free and evictions
      can make room. */
  lemma RetainExactly(size: seq<DirectStream> -> nat, direct: seq<DirectStream>, a: Audience, r: DirectRecord)
    ensures var s := Begun(direct, a)[Place(direct, a)];
            RetainDirect(size, direct, a, r).Ok? <==>
              && (Position(direct, a).Some? || |direct| != MAX_DIRECT_STREAMS)
              && (r in s.records ||
                  (&& !Retains(s, r.sequence) && !HasId(s, r.id)
                   && var placed := Begun(direct, a)[Place(direct, a) := Placed(s, r)];
                      exists n: nat :: n <= Total(placed) && size(Dropped(placed, n)) <= MAX_DIRECT_RETAINED_BYTES))
  {
    hide Position, Shrunk, Placed, Dropped, Total;
    var s := Begun(direct, a)[Place(direct, a)];
    ShrunkExactly(size, Begun(direct, a)[Place(direct, a) := Placed(s, r)]);
    if r in s.records { assert Retains(s, r.sequence); }
  }

  // --------------------------------------------------- numbers never come back

  /** The head a stream has heard of bounds everything in it. */
  ghost predicate HeadKnown(s: DirectStream) {
    Base(s) <= s.knownHead && forall r :: r in s.records ==> r.sequence <= s.knownHead
  }

  /** For the streams this code builds the effective head is the known head. */
  lemma HeadIsKnown(s: DirectStream)
    requires HeadKnown(s)
    ensures Head(s) == s.knownHead
  {
    if s.records != [] { assert s.records[|s.records| - 1] in s.records; }
  }

  lemma PlacedSorted(s: DirectStream, r: DirectRecord)
    requires Ordered(s) && !Retains(s, r.sequence)
    ensures var sorted := SortBy(Ordinal(), s.records + [r]);
            && StrictlyBy(Ordinal(), sorted) && |sorted| == |s.records| + 1
            && forall x :: x in sorted <==> x == r || x in s.records
  {
    forall x | x in s.records ensures Ordinal()(x) != Ordinal()(r) { assert x.sequence != r.sequence; }
    PushSorted(Ordinal(), s.records, r);
  }

  /** Inserting raises the known head to the new number, never lowers it. */
  lemma PlacedHead(s: DirectStream, r: DirectRecord)
    requires HeadKnown(s) && Ordered(s) && !Retains(s, r.sequence)
    ensures HeadKnown(Placed(s, r)) && Placed(s, r).knownHead == Max(s.knownHead, r.sequence)
    ensures Ordered(Placed(s, r))
  {
    hide SortBy, StrictlyBy;
    var sorted := PlacedFront(s, r);
  }

  // ----------------------------------------- when does insertion keep the floor

  /** Every record is above the floor, in order: what restoring demands. */
  ghost predicate AboveFloor(s: DirectStream) {
    Ordered(s) && forall r :: r in s.records ==> r.sequence > s.floor
  }

  /** The oldest of an overfull list is the new record exactly when it is below
      everything held. */
  lemma PlacedFront(s: DirectStream, r: DirectRecord) returns (sorted: seq<DirectRecord>)
    requires Ordered(s) && !Retains(s, r.sequence)
    ensures sorted == SortBy(Ordinal(), s.records + [r]) && |sorted| == |s.records| + 1
    ensures StrictlyBy(Ordinal(), sorted) && StrictlyBy(Ordinal(), sorted[1..])
    ensures forall x :: x in sorted <==> x == r || x in s.records
    ensures forall x :: x in sorted[1..] <==> (x == r || x in s.records) && x != sorted[0]
    ensures sorted[0] in sorted && forall x :: x in sorted[1..] ==> sorted[0].sequence < x.sequence
  {
    hide SortBy, StrictlyBy;
    PlacedSorted(s, r);
    sorted := SortBy(Ordinal(), s.records + [r]);
    StrictFront(Ordinal(), sorted);
    forall x | x in sorted[1..] ensures sorted[0].sequence < x.sequence { assert Ordinal()(sorted[0]) < Ordinal()(x); }
  }

  /** The numbers a stream takes without harm to its floor. */
  predicate Harmless(s: DirectStream, n: u64) { n > s.floor || (n == s.floor && |s.records| == WINDOW) }

  /** Insertion keeps every record above the floor and never lowers the floor
      exactly when the new number is above the floor, or equals it while the
      window is full. Nothing in the code checks this. */
  lemma PlacedKeepsFloor(s: DirectStream, r: DirectRecord)
    requires AboveFloor(s) && |s.records| <= WINDOW && !Retains(s, r.sequence)
    ensures AboveFloor(Placed(s, r)) && s.floor <= Placed(s, r).floor <==> Harmless(s, r.sequence)
  {
    hide SortBy, StrictlyBy;
    var sorted := PlacedFront(s, r);
    assert r in sorted;
  }

  /** A late object into a full window is dropped at once and takes the floor
      down with it: the floor now claims numbers that were already settled. */
  lemma LateArrivalLowersFloor(s: DirectStream, r: DirectRecord)
    requires AboveFloor(s) && |s.records| == WINDOW && r.sequence < s.floor
    ensures !Retains(s, r.sequence) && Placed(s, r).floor == r.sequence < s.floor
    ensures Ordered(Placed(s, r)) && Placed(s, r).knownHead == Max(s.knownHead, r.sequence)
    ensures forall x :: x in Placed(s, r).records <==> x in s.records
    ensures forall n :: r.sequence < n <= s.floor ==> !Retains(Placed(s, r), n)
  {
    hide SortBy, StrictlyBy;
    var sorted := PlacedFront(s, r);
    assert r in sorted;
  }

  // ------------------------------------------------------ what eviction keeps

  /** A number is settled: retained, or at or below the floor. */
  ghost predicate Settles(s: DirectStream, n: int) { n <= s.floor || Retains(s, n) }

  /** `t` is `s` with only some oldest records given up. */
  ghost predicate Narrowed(s: DirectStream, t: DirectStream) {
    && t.audience == s.audience && t.recoveryFloor == s.recoveryFloor && t.knownHead == s.knownHead && s.floor <= t.floor
    && |t.records| <= |s.records|
    && (Ordered(s) ==> Ordered(t))
    && (AboveFloor(s) ==> AboveFloor(t))
    && (HeadKnown(s) ==> HeadKnown(t))
    && (forall n :: Settles(s, n) ==> Settles(t, n))
  }

  lemma DropFirstNarrows(s: DirectStream)
    requires s.records != []
    ensures Narrowed(s, DropFirst(s))
  {
    var t := DropFirst(s);
    assert s.records == [s.records[0]] + t.records;
    assert forall r :: r in s.records <==> r == s.records[0] || r in t.records;
    hide StrictlyBy;
    if Ordered(s) {
      StrictFront(Ordinal(), s.records);
      forall r | r in t.records ensures s.records[0].sequence < r.sequence { assert Ordinal()(s.records[0]) < Ordinal()(r); }
    }
    forall n | Settles(s, n) ensures Settles(t, n) {
      if n > s.floor {
        var r :| r in s.records && r.sequence == n;
        assert r == s.records[0] || Carries(t.records, n);
      }
    }
  }

  lemma NarrowedTransitive(a: DirectStream, b: DirectStream, c: DirectStream)
    requires Narrowed(a, b) && Narrowed(b, c)
    ensures Narrowed(a, c)
  {
    hide Settles, AboveFloor, HeadKnown, Ordered;
  }

  lemma NarrowedReflexive(a: DirectStream)
    ensures Narrowed(a, a)
  {
  }

  /** The budget loop only narrows streams, each in place. */
  lemma {:induction false} ShrunkNarrows(size: seq<DirectStream> -> nat, direct: seq<DirectStream>)
    requires Shrunk(size, direct).Ok?
    ensures |Shrunk(size, direct).value| == |direct|
    ensures forall i :: 0 <= i < |direct| ==> Narrowed(direct[i], Shrunk(size, direct).value[i])
    decreases Total(direct)
  {
    hide Narrowed;
    if size(direct) <= MAX_DIRECT_RETAINED_BYTES {
      forall i | 0 <= i < |direct| ensures Narrowed(direct[i], direct[i]) { NarrowedReflexive(direct[i]); }
    } else {
      var k := Heaviest(direct).value;
      var next := direct[k := DropFirst(direct[k])];
      TotalUpdate(direct, k, DropFirst(direct[k]));
      ShrunkNarrows(size, next);
      var end := Shrunk(size, next).value;
      forall i | 0 <= i < |direct| ensures Narrowed(direct[i], end[i]) {
        if i == k {
          DropFirstNarrows(direct[k]);
          NarrowedTransitive(direct[k], next[k], end[k]);
        }
      }
    }
  }

  // -------------------------------------------------- every operation in turn

  /** What every reachable list of streams is. */
  ghost predicate Well(direct: seq<DirectStream>) {
    UniqueAudiences(direct) && forall i :: 0 <= i < |direct| ==> WellStream(direct[i])
  }

  ghost predicate WellStream(s: DirectStream) {
    Ordered(s) && HeadKnown(s) && |s.records| <= WINDOW
  }

  function HeadOf(direct: seq<DirectStream>, a: Audience): u64 {
    match Position(direct, a)
    case None => 0
    case Some(i) => Head(direct[i])
  }

  /** Position by position: the same stream, its head no lower. */
  ghost predicate Continued(s: DirectStream, t: DirectStream) {
    t.audience == s.audience && WellStream(t) && s.knownHead <= t.knownHead
  }

  ghost predicate Grown(direct: seq<DirectStream>, next: seq<DirectStream>) {
    |direct| <= |next| && forall i :: 0 <= i < |direct| ==> Continued(direct[i], next[i])
  }

  lemma {:induction false} PositionUnique(direct: seq<DirectStream>, i: nat)
    requires UniqueAudiences(direct) && i < |direct|
    ensures Position(direct, direct[i].audience) == Some(i)
  {
    assert Position(direct, direct[i].audience).Some?;
  }

  /** Heads never fall, audience by audience. */
  lemma GrownHeads(direct: seq<DirectStream>, next: seq<DirectStream>, a: Audience)
    requires Well(direct) && Well(next) && Grown(direct, next)
    ensures HeadOf(direct, a) <= HeadOf(next, a)
  {
    hide WellStream, Position;
    var at := Position(direct, a);
    if at.Some? {
      PositionUnique(next, at.value);
      WellHead(direct[at.value]);
      WellHead(next[at.value]);
    }
  }

  lemma WellHead(s: DirectStream)
    requires WellStream(s)
    ensures Head(s) == s.knownHead
  {
    HeadIsKnown(s);
  }

  lemma NarrowedContinues(s: DirectStream, t: DirectStream)
    requires WellStream(s) && Narrowed(s, t)
    ensures Continued(s, t)
  {
    hide Settles, AboveFloor, HeadKnown, Ordered;
  }

  lemma PlacedContinues(s: DirectStream, r: DirectRecord)
    requires WellStream(s) && !Retains(s, r.sequence)
    ensures Continued(s, Placed(s, r)) && r.sequence <= Placed(s, r).knownHead
  {
    hide SortBy, StrictlyBy;
    PlacedHead(s, r);
    var sorted := PlacedFront(s, r);
  }

  /** Same audiences in the same places: still unique. */
  lemma GrownUnique(direct: seq<DirectStream>, next: seq<DirectStream>)
    requires UniqueAudiences(direct) && |direct| == |next|
    requires forall i :: 0 <= i < |direct| ==> next[i].audience == direct[i].audience
    ensures UniqueAudiences(next)
  {
  }

  /** The list with room for an audience: itself, or with a fresh stream. */
  function Begun(direct: seq<DirectStream>, a: Audience): seq<DirectStream> {
    if Position(direct, a).Some? then direct else direct + [FreshStream(a)]
  }

  function Place(direct: seq<DirectStream>, a: Audience): (i: nat)
    ensures i < |Begun(direct, a)| && Begun(direct, a)[i].audience == a
  {
    if Position(direct, a).Some? then Position(direct, a).value else |direct|
  }

  lemma BegunWell(direct: seq<DirectStream>, a: Audience)
    requires Well(direct)
    ensures Well(Begun(direct, a)) && Grown(direct, Begun(direct, a))
  {
    hide StrictlyBy;
    assert WellStream(FreshStream(a)) by { NothingOrdered(a); }
    hide WellStream;
  }

  lemma NothingOrdered(a: Audience)
    ensures Ordered(FreshStream(a))
  {
  }

  lemma WellUpdate(direct: seq<DirectStream>, i: nat, s: DirectStream)
    requires Well(direct) && i < |direct| && Continued(direct[i], s)
    ensures Well(direct[i := s]) && Grown(direct, direct[i := s])
  {
    hide WellStream;
    GrownUnique(direct, direct[i := s]);
    assert WellStream(s) by { assert Continued(direct[i], s); }
    forall k | 0 <= k < |direct| ensures Continued(direct[k], direct[i := s][k]) { }
  }

  lemma GrownTransitive(a: seq<DirectStream>, b: seq<DirectStream>, c: seq<DirectStream>)
    requires Grown(a, b) && Grown(b, c)
    ensures Grown(a, c)
  {
    hide WellStream;
  }

  lemma ShrunkWell(size: seq<DirectStream> -> nat, direct: seq<DirectStream>)
    requires Well(direct) && Shrunk(size, direct).Ok?
    ensures Well(Shrunk(size, direct).value) && Grown(direct, Shrunk(size, direct).value)
  {
    hide WellStream, Narrowed, Shrunk;
    ShrunkNarrows(size, direct);
    var next := Shrunk(size, direct).value;
    forall i | 0 <= i < |direct| ensures Continued(direct[i], next[i]) { NarrowedContinues(direct[i], next[i]); }
    GrownUnique(direct, next);
  }

  /** Retaining an object keeps every stream well formed, lets no head fall, and
      leaves its audience's head at or above the object's number: even when the
      copy itself is evicted at once. */
  lemma RetainWell(size: seq<DirectStream> -> nat, direct: seq<DirectStream>, a: Audience, r: DirectRecord)
    requires Well(direct) && RetainDirect(size, direct, a, r).Ok?
    ensures var next := RetainDirect(size, direct, a, r).value;
            Well(next) && Grown(direct, next) && r.sequence <= HeadOf(next, a)
  {
    hide WellStream, Shrunk, Placed, Position;
    BegunWell(direct, a);
    var begun, i := Begun(direct, a), Place(direct, a);
    var next := RetainDirect(size, direct, a, r).value;
    var placing := Inserted(begun[i], r).value;
    if placing.New? {
      PlacedContinues(begun[i], r);
      var placed := begun[i := placing.stream];
      WellUpdate(begun, i, placing.stream);
      ShrunkWell(size, placed);
      GrownTransitive(direct, begun, placed);
      GrownTransitive(direct, placed, next);
      assert Continued(placed[i], next[i]);
    } else {
      KnownBounds(begun[i], r);
    }
    PositionUnique(next, i);
    WellHead(next[i]);
  }

  lemma KnownBounds(s: DirectStream, r: DirectRecord)
    requires WellStream(s) && r in s.records
    ensures r.sequence <= s.knownHead
  {
  }

  /** `stage_direct_head`: None when nothing new was announced. */
  function Announced(direct: seq<DirectStream>, a: Audience, through: nonzero): Result<Option<seq<DirectStream>>> {
    var at := Position(direct, a);
    if at.Some? && Head(direct[at.value]) >= through then Ok(None) else
    if at.None? && |direct| == MAX_DIRECT_STREAMS then Err(CapacityExhausted) else
    var begun, i := Begun(direct, a), Place(direct, a);
    Ok(Some(begun[i := begun[i].(knownHead := through)]))
  }

  lemma AnnouncedWell(direct: seq<DirectStream>, a: Audience, through: nonzero)
    requires Well(direct) && Announced(direct, a, through).Ok? && Announced(direct, a, through).value.Some?
    ensures var next := Announced(direct, a, through).value.value;
            Well(next) && Grown(direct, next) && HeadOf(next, a) == through
  {
    hide Position, StrictlyBy;
    BegunWell(direct, a);
    var begun, i := Begun(direct, a), Place(direct, a);
    HeadIsKnown(begun[i]);
    var raised := begun[i].(knownHead := through);
    assert Continued(begun[i], raised);
    hide WellStream;
    WellUpdate(begun, i, raised);
    var next := begun[i := raised];
    GrownTransitive(direct, begun, next);
    PositionUnique(next, i);
    WellHead(next[i]);
  }

  /** `skip_direct_gap`. */
  function SkipDirect(direct: seq<DirectStream>, a: Audience, gap: Gap): Result<(seq<DirectStream>, u64)> {
    var at := Position(direct, a);
    if at.None? then Err(UnknownStream) else
    var skipped :- Skipped(direct[at.value], gap);
    Ok((direct[at.value := skipped.0], skipped.1))
  }

  /** Skipping, too, keeps every head: for any gap it accepts. */
  lemma SkipWell(direct: seq<DirectStream>, a: Audience, gap: Gap)
    requires Well(direct) && SkipDirect(direct, a, gap).Ok?
    ensures var next := SkipDirect(direct, a, gap).value.0;
            Well(next) && Grown(direct, next) && HeadOf(next, a) == HeadOf(direct, a)
  {
    hide Position, StrictlyBy, Scanned;
    var i := Position(direct, a).value;
    var next := Skipped(direct[i], gap).value.0;
    HeadIsKnown(direct[i]);
    SkippedBelowHead(direct[i], gap);
    assert WellStream(next) && Continued(direct[i], next);
    hide WellStream, Skipped;
    WellUpdate(direct, i, next);
    PositionUnique(direct[i := next], i);
    WellHead(next);
  }

  lemma SkippedBelowHead(s: DirectStream, gap: Gap)
    requires WellStream(s) && Skipped(s, gap).Ok?
    ensures Skipped(s, gap).value.0.recoveryFloor <= s.knownHead
  {
    HeadIsKnown(s);
    ScanNextHeld(s.records, Start(s));
  }

  lemma {:induction false} ScanNextHeld(records: seq<DirectRecord>, expected: u64)
    ensures var scan := Scanned(records, expected); scan.Ok? && scan.value.next.Some? ==> exists r :: r in records && r.sequence == scan.value.next.value
  {
    if records != [] {
      if records[0].sequence > expected {
        assert records[0] in records;
      } else if records[0].sequence < expected || expected < U64_MAX {
        var onward := if records[0].sequence == expected then expected + 1 else expected;
        ScanNextHeld(records[1..], onward);
        assert forall r :: r in records[1..] ==> r in records;
      }
    }
  }

  // ------------------------------------------------- numbers are never reused

  datatype StreamEvent =
    | Retaining(audience: Audience, record: DirectRecord)
    | Announcing(audience: Audience, through: nonzero)
    | Skipping(audience: Audience, gap: Gap)

  /** A refused event leaves the streams as they were. */
  function After(size: seq<DirectStream> -> nat, direct: seq<DirectStream>, e: StreamEvent): seq<DirectStream> {
    match e
    case Retaining(a, r) => var next := RetainDirect(size, direct, a, r); if next.Ok? then next.value else direct
    case Announcing(a, through) => var next := Announced(direct, a, through); if next.Ok? && next.value.Some? then next.value.value else direct
    case Skipping(a, gap) => var next := SkipDirect(direct, a, gap); if next.Ok? then next.value.0 else direct
  }

  function AfterAll(size: seq<DirectStream> -> nat, direct: seq<DirectStream>, events: seq<StreamEvent>): seq<DirectStream>
    decreases |events|
  {
    if events == [] then direct else AfterAll(size, After(size, direct, events[0]), events[1..])
  }

  lemma GrownReflexive(direct: seq<DirectStream>)
    requires Well(direct)
    ensures Grown(direct, direct)
  {
    hide Ordered, HeadKnown;
  }

  lemma AfterWell(size: seq<DirectStream> -> nat, direct: seq<DirectStream>, e: StreamEvent)
    requires Well(direct)
    ensures Well(After(size, direct, e)) && Grown(direct, After(size, direct, e))
  {
    hide Well, Grown, RetainDirect, Announced, SkipDirect;
    GrownReflexive(direct);
    match e
    case Retaining(a, r) => if RetainDirect(size, direct, a, r).Ok? { RetainWell(size, direct, a, r); }
    case Announcing(a, through) =>
      if Announced(direct, a, through).Ok? && Announced(direct, a, through).value.Some? { AnnouncedWell(direct, a, through); }
    case Skipping(a, gap) => if SkipDirect(direct, a, gap).Ok? { SkipWell(direct, a, gap); }
  }

  lemma {:induction false} AfterAllWell(size: seq<DirectStream> -> nat, direct: seq<DirectStream>, events: seq<StreamEvent>)
    requires Well(direct)
    ensures Well(AfterAll(size, direct, events)) && Grown(direct, AfterAll(size, direct, events))
    decreases |events|
  {
    hide Well, Grown, After;
    if events == [] {
      GrownReflexive(direct);
    } else {
      var next := After(size, direct, events[0]);
      AfterWell(size, direct, events[0]);
      AfterAllWell(size, next, events[1..]);
      GrownTransitive(direct, next, AfterAll(size, next, events[1..]));
    }
  }

  /** `next_direct_sequence`. */
  function NextSequence(direct: seq<DirectStream>, a: Audience): Result<nonzero> {
    if HeadOf(direct, a) == U64_MAX then Err(SequenceExhausted) else Ok(HeadOf(direct, a) + 1)
  }

  /** Direct numbers never repeat: after an object was retained in a scope, and
      whatever is retained, announced, skipped or evicted afterwards, the number
      assigned next in that scope is larger than the object's. */
  lemma NumbersNeverRepeat(size: seq<DirectStream> -> nat, before: seq<StreamEvent>, a: Audience, r: DirectRecord, later: seq<StreamEvent>)
    requires RetainDirect(size, AfterAll(size, [], before), a, r).Ok?
    ensures var end := AfterAll(size, RetainDirect(size, AfterAll(size, [], before), a, r).value, later);
            r.sequence <= HeadOf(end, a) && (NextSequence(end, a).Ok? ==> NextSequence(end, a).value > r.sequence)
  {
    hide Well, Grown, RetainDirect, AfterAll, HeadOf;
    NothingWell();
    AfterAllWell(size, [], before);
    var direct := AfterAll(size, [], before);
    RetainWell(size, direct, a, r);
    var next := RetainDirect(size, direct, a, r).value;
    AfterAllWell(size, next, later);
    GrownHeads(next, AfterAll(size, next, later), a);
  }

  /** The number an event makes a scope hear of: of an object it retains, or of an
      announcement it accepts; otherwise none. */
  function Told(size: seq<DirectStream> -> nat, direct: seq<DirectStream>, e: StreamEvent, a: Audience): u64 {
    match e
    case Retaining(b, r) => if b == a && RetainDirect(size, direct, b, r).Ok? then r.sequence else 0
    case Announcing(b, through) => if b == a && Announced(direct, b, through).Ok? then through else 0
    case Skipping(_, _) => 0
  }

  /** The largest number a scope heard of during a run. */
  function LargestTold(size: seq<DirectStream> -> nat, direct: seq<DirectStream>, events: seq<StreamEvent>, a: Audience): u64
    decreases |events|
  {
    if events == [] then 0 else
    Max(Told(size, direct, events[0], a), LargestTold(size, After(size, direct, events[0]), events[1..], a))
  }

  /** Where every stream stays in place and only the one at `i` has a new known
      head, only that audience's head is new. */
  lemma HeadsAt(direct: seq<DirectStream>, next: seq<DirectStream>, i: nat, top: u64, a: Audience)
    requires Well(direct) && Well(next) && |direct| == |next| && i < |direct|
    requires forall k :: 0 <= k < |direct| ==> next[k].audience == direct[k].audience && next[k].knownHead == if k == i then top else direct[k].knownHead
    ensures HeadOf(next, a) == if a == direct[i].audience then top else HeadOf(direct, a)
  {
    hide WellStream, Position, Head;
    var at := Position(direct, a);
    if at.Some? {
      PositionUnique(direct, i);
      PositionUnique(next, at.value);
      WellHead(direct[at.value]);
      WellHead(next[at.value]);
    }
  }

  lemma BegunHeads(direct: seq<DirectStream>, a: Audience, b: Audience)
    requires Well(direct)
    ensures HeadOf(Begun(direct, a), b) == HeadOf(direct, b)
    ensures Begun(direct, a)[Place(direct, a)].knownHead == HeadOf(direct, a)
  {
    hide WellStream, Position;
    BegunWell(direct, a);
    var begun := Begun(direct, a);
    if Position(begun, b).Some? { PositionUnique(begun, Position(begun, b).value); }
    if Position(direct, b).Some? { PositionUnique(begun, Position(direct, b).value); }
    if Position(direct, a).Some? { WellHead(direct[Position(direct, a).value]); }
  }

  lemma RetainHeads(size: seq<DirectStream> -> nat, direct: seq<DirectStream>, b: Audience, r: DirectRecord, a: Audience)
    requires Well(direct) && RetainDirect(size, direct, b, r).Ok?
    ensures HeadOf(RetainDirect(size, direct, b, r).value, a) == if a == b then Max(HeadOf(direct, a), r.sequence) else HeadOf(direct, a)
  {
    hide WellStream, Shrunk, Position, HeadOf, SortBy, Narrowed;
    BegunWell(direct, b);
    BegunHeads(direct, b, a);
    RetainWell(size, direct, b, r);
    var begun, i := Begun(direct, b), Place(direct, b);
    var next := RetainDirect(size, direct, b, r).value;
    var placing := Inserted(begun[i], r).value;
    if placing.New? {
      var placed := begun[i := placing.stream];
      ShrunkNarrows(size, placed);
      forall k | 0 <= k < |placed| ensures next[k].audience == placed[k].audience && next[k].knownHead == placed[k].knownHead { NarrowedHead(placed[k], next[k]); }
      HeadsAt(begun, next, i, Max(begun[i].knownHead, r.sequence), a);
    } else {
      KnownBounds(begun[i], r);
    }
  }

  lemma NarrowedHead(s: DirectStream, t: DirectStream)
    requires Narrowed(s, t)
    ensures t.audience == s.audience && t.knownHead == s.knownHead
  {
  }

  lemma AnnouncedHeads(direct: seq<DirectStream>, b: Audience, through: nonzero, a: Audience)
    requires Well(direct) && Announced(direct, b, through).Ok?
    ensures Announced(direct, b, through).value.None? ==> through <= HeadOf(direct, b)
    ensures Announced(direct, b, through).value.Some? ==>
              HeadOf(Announced(direct, b, through).value.value, a) == if a == b then Max(HeadOf(direct, a), through) else HeadOf(direct, a)
  {
    hide WellStream, Position;
    if Announced(direct, b, through).value.Some? {
      BegunWell(direct, b);
      BegunHeads(direct, b, a);
      BegunHeads(direct, b, b);
      AnnouncedWell(direct, b, through);
      HeadsAt(Begun(direct, b), Announced(direct, b, through).value.value, Place(direct, b), through, a);
    }
  }

  /** An announcement is nothing new exactly when the scope has heard of its number,
      and is refused exactly when the scope has no stream and there is no room. */
  lemma AnnouncedExactly(direct: seq<DirectStream>, a: Audience, through: nonzero)
    ensures Announced(direct, a, through) == Ok(None) <==> through <= HeadOf(direct, a)
    ensures Announced(direct, a, through).Err? <==> |direct| == MAX_DIRECT_STREAMS && forall d :: d in direct ==> d.audience != a
  {
    var at := Position(direct, a);
    hide Position;
    if at.Some? { assert direct[at.value] in direct; }
  }

  lemma SkipHeads(direct: seq<DirectStream>, b: Audience, gap: Gap, a: Audience)
    requires Well(direct) && SkipDirect(direct, b, gap).Ok?
    ensures HeadOf(SkipDirect(direct, b, gap).value.0, a) == HeadOf(direct, a)
  {
    hide WellStream, Position, Scanned, HeadOf;
    var i := Position(direct, b).value;
    SkipWell(direct, b, gap);
    HeadsAt(direct, SkipDirect(direct, b, gap).value.0, i, direct[i].knownHead, a);
  }

  lemma StepHeads(size: seq<DirectStream> -> nat, direct: seq<DirectStream>, e: StreamEvent, a: Audience)
    requires Well(direct)
    ensures HeadOf(After(size, direct, e), a) == Max(HeadOf(direct, a), Told(size, direct, e, a))
  {
    hide Well, RetainDirect, Announced, SkipDirect, HeadOf;
    match e
    case Retaining(b, r) => if RetainDirect(size, direct, b, r).Ok? { RetainHeads(size, direct, b, r, a); }
    case Announcing(b, through) => if Announced(direct, b, through).Ok? { AnnouncedHeads(direct, b, through, a); }
    case Skipping(b, gap) => if SkipDirect(direct, b, gap).Ok? { SkipHeads(direct, b, gap, a); }
  }

  lemma {:induction false} HeadIsLargest(size: seq<DirectStream> -> nat, direct: seq<DirectStream>, events: seq<StreamEvent>, a: Audience)
    requires Well(direct)
    ensures HeadOf(AfterAll(size, direct, events), a) == Max(HeadOf(direct, a), LargestTold(size, direct, events, a))
    decreases |events|
  {
    hide Well, After, Told, HeadOf;
    if events != [] {
      StepHeads(size, direct, events[0], a);
      AfterWell(size, direct, events[0]);
      HeadIsLargest(size, After(size, direct, events[0]), events[1..], a);
    }
  }

  /** The number assigned next is exactly one more than the largest number the
      scope ever heard of, retained or announced and whatever was skipped or
      evicted since; there is none only after the last 64-bit number. */
  lemma NextIsOneMore(size: seq<DirectStream> -> nat, events: seq<StreamEvent>, a: Audience)
    ensures var largest := LargestTold(size, [], events, a);
            var next := NextSequence(AfterAll(size, [], events), a);
            if largest < U64_MAX then next == Ok(largest + 1) else next == Err(SequenceExhausted)
  {
    NothingWell();
    assert HeadOf([], a) == 0;
    HeadIsLargest(size, [], events, a);
  }

  lemma NothingWell()
    ensures Well([])
  {
  }

  // -------------------------------------------------- gaps over all audiences

  /** `next_direct_gap`: the first stream addressed to the member that misses a
      number, and what it misses. */
  function NextGap(direct: seq<DirectStream>, member: Id32): Result<Option<(Audience, Gap)>> {
    if direct == [] then Ok(None) else
    if member !in direct[0].audience.recipients then NextGap(direct[1..], member) else
    var gap :- GapOf(direct[0]);
    if gap.Some? then Ok(Some((direct[0].audience, gap.value))) else NextGap(direct[1..], member)
  }

  method FindGap(direct: seq<DirectStream>, member: Id32) returns (r: Result<Option<(Audience, Gap)>>)
    ensures r == NextGap(direct, member)
  {
    var i := 0;
    while i < |direct|
      invariant i <= |direct|
      invariant NextGap(direct[i..], member) == NextGap(direct, member)
    {
      var s := direct[i];
      assert direct[i..][0] == s && direct[i..][1..] == direct[i + 1..];
      if member in s.audience.recipients {
        var scan := ScanRecords(s.records, Start(s));
        if scan.Err? { return Err(scan.error); }
        var after := scan.value.expected - 1;
        if scan.value.next.Some? {
          return Ok(Some((s.audience, Gap(after, Min(scan.value.next.value, Saturating(after, MAX_RECOVERY_PACKETS))))));
        }
        if Head(s) >= scan.value.expected {
          return Ok(Some((s.audience, Gap(after, Min(Head(s), Saturating(after, MAX_RECOVERY_PACKETS))))));
        }
      }
      i := i + 1;
    }
    r := Ok(None);
  }

  ghost predicate AllOrdered(direct: seq<DirectStream>) {
    forall i :: 0 <= i < |direct| ==> Ordered(direct[i])
  }

  /** What is still open on one stream, and over all of them. */
  function Open(s: DirectStream): nat { if Head(s) > Base(s) then Head(s) - Base(s) else 0 }

  function Debt(direct: seq<DirectStream>): nat {
    if direct == [] then 0 else Open(direct[0]) + Debt(direct[1..])
  }

  lemma {:induction false} DebtUpdate(direct: seq<DirectStream>, i: nat, s: DirectStream)
    requires i < |direct|
    ensures Debt(direct[i := s]) == Debt(direct) - Open(direct[i]) + Open(s)
  {
    hide Open;
    if i > 0 {
      assert direct[i := s][1..] == direct[1..][i - 1 := s];
      DebtUpdate(direct[1..], i - 1, s);
    } else {
      assert direct[i := s][1..] == direct[1..];
    }
  }

  predicate Addressed(s: DirectStream, member: Id32) { member in s.audience.recipients }

  /** The answer is that of the first stream addressed to the member which does
      not report "no gap": its gap, or its error. Without such a stream there is
      no gap. */
  lemma {:induction false} NextGapMeans(direct: seq<DirectStream>, member: Id32) returns (at: nat)
    ensures at <= |direct| && forall i :: 0 <= i < at && Addressed(direct[i], member) ==> GapOf(direct[i]) == Ok(None)
    ensures at == |direct| ==> NextGap(direct, member) == Ok(None)
    ensures at < |direct| ==>
              && Addressed(direct[at], member) && GapOf(direct[at]) != Ok(None)
              && NextGap(direct, member) == (match GapOf(direct[at])
                                             case Err(e) => Err(e)
                                             case Ok(gap) => if gap.Some? then Ok(Some((direct[at].audience, gap.value))) else Ok(None))
  {
    hide GapOf;
    at := 0;
    if direct != [] && (!Addressed(direct[0], member) || GapOf(direct[0]) == Ok(None)) {
      var later := NextGapMeans(direct[1..], member);
      at := later + 1;
      forall i | 0 <= i < at && Addressed(direct[i], member) ensures GapOf(direct[i]) == Ok(None) {
        if i > 0 { assert direct[i] == direct[1..][i - 1]; }
      }
    }
  }

  /** Skipping the reported gap is accepted, on the reported stream only; returns
      how many numbers it gives up; keeps every head; and pays off part of the
      debt, unless the stream's base is the largest number: then the same gap is
      reported again. */
  lemma SkipReported(direct: seq<DirectStream>, member: Id32) returns (at: nat)
    requires UniqueAudiences(direct) && AllOrdered(direct)
    requires NextGap(direct, member).Ok? && NextGap(direct, member).value.Some?
    ensures var (a, gap) := NextGap(direct, member).value.value;
            && at < |direct| && Addressed(direct[at], member) && GapOf(direct[at]) == Ok(Some(gap)) && SkipDirect(direct, a, gap).Ok?
            && var (next, count) := SkipDirect(direct, a, gap).value;
               && |next| == |direct| && next == direct[at := next[at]] && count == |Missing(direct[at], gap)|
               && UniqueAudiences(next) && AllOrdered(next) && SameHeads(direct, next)
               && (Base(direct[at]) < U64_MAX ==> Debt(next) < Debt(direct))
               && (Base(direct[at]) == U64_MAX ==> GapOf(next[at]) == GapOf(direct[at]))
  {
    hide Ordered, GapOf, Skipped, Missing, Head, Base, Position;
    at := NextGapMeans(direct, member);
    var (a, gap) := NextGap(direct, member).value.value;
    PositionUnique(direct, at);
    SkipExactly(direct[at], gap);
    var next := Skipped(direct[at], gap).value.0;
    DebtUpdate(direct, at, next);
    assert SkipDirect(direct, a, gap).value.0 == direct[at := next];
    GrownUnique(direct, direct[at := next]);
  }

  /** Position by position: the same audience and the same head. */
  ghost predicate SameHeads(direct: seq<DirectStream>, next: seq<DirectStream>) {
    |next| == |direct| && forall i :: 0 <= i < |direct| ==> next[i].audience == direct[i].audience && Head(next[i]) == Head(direct[i])
  }

  /** One round of reporting and skipping over all streams. */
  function RoundAll(direct: seq<DirectStream>, member: Id32): seq<DirectStream> {
    match NextGap(direct, member)
    case Ok(Some((a, gap))) => if SkipDirect(direct, a, gap).Ok? then SkipDirect(direct, a, gap).value.0 else direct
    case _ => direct
  }

  function RoundsAll(direct: seq<DirectStream>, member: Id32, n: nat): seq<DirectStream>
    decreases n
  {
    if n == 0 then direct else RoundsAll(RoundAll(direct, member), member, n - 1)
  }

  lemma RoundAllKeeps(direct: seq<DirectStream>, member: Id32)
    requires UniqueAudiences(direct) && AllOrdered(direct)
    ensures var next := RoundAll(direct, member); UniqueAudiences(next) && AllOrdered(next) && SameHeads(direct, next)
  {
    hide Ordered, NextGap, SkipDirect, Head;
    if NextGap(direct, member).Ok? && NextGap(direct, member).value.Some? { var at := SkipReported(direct, member); }
  }

  lemma {:induction false} RoundsAllKeep(direct: seq<DirectStream>, member: Id32, n: nat)
    requires UniqueAudiences(direct) && AllOrdered(direct)
    ensures var end := RoundsAll(direct, member, n); AllOrdered(end) && SameHeads(direct, end)
    decreases n
  {
    hide AllOrdered, RoundAll, UniqueAudiences, Head;
    if n > 0 { RoundAllKeeps(direct, member); RoundsAllKeep(RoundAll(direct, member), member, n - 1); }
  }

  /** Every stream addressed to the member can be counted to its end. */
  ghost predicate AllCountable(direct: seq<DirectStream>, member: Id32) {
    forall i :: 0 <= i < |direct| && Addressed(direct[i], member) ==> Head(direct[i]) < U64_MAX
  }

  lemma {:induction false} RoundsAllRest(direct: seq<DirectStream>, member: Id32, n: nat)
    requires NextGap(direct, member) == Ok(None)
    ensures RoundsAll(direct, member, n) == direct
    decreases n
  {
    hide NextGap;
    if n > 0 { RoundsAllRest(direct, member, n - 1); }
  }

  /** Then a gap is reported or nothing is missing, and a skip pays. */
  lemma CountableReport(direct: seq<DirectStream>, member: Id32)
    requires UniqueAudiences(direct) && AllOrdered(direct) && AllCountable(direct, member)
    ensures NextGap(direct, member).Ok?
    ensures NextGap(direct, member).value.Some? ==> Debt(RoundAll(direct, member)) < Debt(direct)
  {
    hide Ordered, GapOf, Head, Base, NextGap, SkipDirect, Missing;
    var at := NextGapMeans(direct, member);
    if at < |direct| {
      GapMeans(direct[at]);
      NotFull(direct[at]);
      var i := SkipReported(direct, member);
      GapMeans(direct[i]);
    }
  }

  lemma {:induction false} RoundsAllSettle(direct: seq<DirectStream>, member: Id32, n: nat)
    requires UniqueAudiences(direct) && AllOrdered(direct) && AllCountable(direct, member) && Debt(direct) <= n
    ensures NextGap(RoundsAll(direct, member, n), member) == Ok(None)
    decreases n
  {
    hide AllOrdered, NextGap, RoundAll, Debt, UniqueAudiences, Head;
    CountableReport(direct, member);
    if NextGap(direct, member).value.None? {
      RoundsAllRest(direct, member, n);
    } else {
      RoundAllKeeps(direct, member);
      RoundsAllSettle(RoundAll(direct, member), member, n - 1);
    }
  }

  /** Reporting and skipping in turn ends with no gap if and only if every stream
      addressed to the member has its head below the largest number. */
  lemma SettlesAllExactly(direct: seq<DirectStream>, member: Id32)
    requires UniqueAudiences(direct) && AllOrdered(direct)
    ensures AllCountable(direct, member) <==> exists n: nat :: NextGap(RoundsAll(direct, member, n), member) == Ok(None)
  {
    hide AllOrdered, NextGap, RoundsAll, Debt, UniqueAudiences, Head;
    if AllCountable(direct, member) {
      RoundsAllSettle(direct, member, Debt(direct));
    } else {
      forall n: nat ensures NextGap(RoundsAll(direct, member, n), member) != Ok(None) {
        RoundsAllKeep(direct, member, n);
        Uncountable(RoundsAll(direct, member, n), member);
      }
    }
  }

  lemma Uncountable(direct: seq<DirectStream>, member: Id32)
    requires AllOrdered(direct) && !AllCountable(direct, member)
    ensures NextGap(direct, member) != Ok(None)
  {
    hide Ordered, NextGap, GapOf, Head, Base;
    var i :| 0 <= i < |direct| && Addressed(direct[i], member) && Head(direct[i]) == U64_MAX;
    NoGapExactly(direct[i]);
    var at := NextGapMeans(direct, member);
  }

  // ---------------------------------------------------------- runs that go wrong

  /** A small object: its id and its one byte are the same. */
  function Item(a: Audience, id: byte, n: u64): DirectRecord { DirectRecord(a.revision, [id] + seq(15, _ => 0), n, [id]) }

  /** Objects numbered and named one after the other. */
  function Row(a: Audience, id: nat, first: nat, n: nat): (r: seq<DirectRecord>)
    requires id + n <= 256 && first + n <= U64_MAX + 1
    ensures |r| == n && forall i :: 0 <= i < n ==> r[i] == Item(a, id + i, first + i)
  {
    seq(n, i requires 0 <= i < n => Item(a, id + i, first + i))
  }

  lemma RowFacts(a: Audience, id: nat, first: nat, n: nat)
    requires id + n <= 256 && first + n <= U64_MAX + 1
    ensures StrictlyBy(Ordinal(), Row(a, id, first, n))
    ensures forall x :: x in Row(a, id, first, n) ==> first <= x.sequence < first + n && |x.body| == 1 && id <= x.id[0] < id + n
    ensures forall k :: Carries(Row(a, id, first, n), k) <==> first <= k < first + n
    ensures id + n < 256 && first + n <= U64_MAX ==> Row(a, id, first, n) + [Item(a, id + n, first + n)] == Row(a, id, first, n + 1)
    ensures n > 0 ==> Row(a, id, first, n)[1..] == Row(a, id + 1, first + 1, n - 1)
  {
    var row := Row(a, id, first, n);
    forall k | first <= k < first + n ensures Carries(row, k) { assert row[k - first] in row; }
  }

  /** A budget that 33 objects of one byte do not exhaust. */
  ghost predicate Modest(size: seq<DirectStream> -> nat) {
    forall s: DirectStream :: |s.records| <= WINDOW + 1 && (forall x :: x in s.records ==> |x.body| <= 1) ==> size([s]) <= MAX_DIRECT_RETAINED_BYTES
  }

  /** Retaining one more object on the only stream. */
  lemma RetainOne(size: seq<DirectStream> -> nat, s: DirectStream, r: DirectRecord)
    requires Modest(size) && Ordered(s) && |s.records| <= WINDOW && |r.body| <= 1
    requires forall x :: x in s.records ==> |x.body| <= 1 && x.sequence != r.sequence && x.id != r.id
    ensures RetainDirect(size, [s], s.audience, r) == Ok([Placed(s, r)])
  {
    hide SortBy, StrictlyBy;
    var sorted := PlacedFront(s, r);
    var placed := Placed(s, r);
    assert forall x :: x in placed.records ==> x == r || x in s.records;
    assert size([placed]) <= MAX_DIRECT_RETAINED_BYTES;
    assert Position([s], s.audience) == Some(0) && [s][0 := placed] == [placed];
  }

  /** The newest number goes to the end; beyond 32 the oldest gives way. */
  lemma PlacedLast(s: DirectStream, r: DirectRecord)
    requires StrictlyBy(Ordinal(), s.records + [r])
    ensures Placed(s, r) == if |s.records| < WINDOW then s.(records := s.records + [r], knownHead := Max(s.knownHead, r.sequence))
                            else s.(floor := (s.records + [r])[0].sequence, records := (s.records + [r])[1..], knownHead := Max(s.knownHead, r.sequence))
  {
    hide SortBy, StrictlyBy;
    SortBySorted(Ordinal(), s.records + [r]);
  }

  /** A number below a full window is given up at once, and is the floor then. */
  lemma PlacedFirst(s: DirectStream, r: DirectRecord)
    requires StrictlyBy(Ordinal(), s.records) && |s.records| == WINDOW && forall x :: x in s.records ==> r.sequence < x.sequence
    ensures Placed(s, r) == s.(floor := r.sequence, knownHead := Max(s.knownHead, r.sequence))
  {
    hide SortBy, StrictlyBy;
    var front := [r] + s.records;
    FrontStrict(s.records, r);
    assert multiset(front) == multiset(s.records + [r]);
    SortedUnique(Ordinal(), SortBy(Ordinal(), s.records + [r]), front);
    assert front[1..] == s.records;
  }

  lemma FrontStrict(records: seq<DirectRecord>, r: DirectRecord)
    requires StrictlyBy(Ordinal(), records) && forall x :: x in records ==> r.sequence < x.sequence
    ensures StrictlyBy(Ordinal(), [r] + records)
  {
    var front := [r] + records;
    forall i, j | 0 <= i < j < |front| ensures Ordinal()(front[i]) < Ordinal()(front[j]) {
      assert front[j] == records[j - 1] && records[j - 1] in records;
      if i > 0 { assert Ordinal()(records[i - 1]) < Ordinal()(records[j - 1]); }
    }
  }

  /** Objects numbered from `first` on, retained one after the other. */
  function Arrivals(a: Audience, first: nat, n: nat): (es: seq<StreamEvent>)
    requires n <= 33 && first + n <= U64_MAX + 1
    ensures |es| == n
  {
    if n == 0 then [] else Arrivals(a, first, n - 1) + [Retaining(a, Item(a, n - 1, first + n - 1))]
  }

  lemma {:induction false} AfterOneMore(size: seq<DirectStream> -> nat, direct: seq<DirectStream>, events: seq<StreamEvent>, e: StreamEvent)
    ensures AfterAll(size, direct, events + [e]) == After(size, AfterAll(size, direct, events), e)
    decreases |events|
  {
    hide After;
    if events == [] {
      assert [] + [e] == [e] && [e][1..] == [];
      assert AfterAll(size, direct, [e]) == AfterAll(size, After(size, direct, e), []);
    } else {
      assert (events + [e])[1..] == events[1..] + [e] && (events + [e])[0] == events[0];
      AfterOneMore(size, After(size, direct, events[0]), events[1..], e);
    }
  }

  /** The stream those arrivals leave: at the 33rd the oldest gives way. */
  function Arrived(a: Audience, first: nat, n: nat): DirectStream
    requires n <= 33 && first + n <= U64_MAX + 1
  {
    if n <= WINDOW then DirectStream(a, 0, 0, if n == 0 then 0 else first + n - 1, Row(a, 0, first, n))
    else DirectStream(a, first, 0, first + 32, Row(a, 1, first + 1, 32))
  }

  lemma ArrivedNext(size: seq<DirectStream> -> nat, a: Audience, first: nat, n: nat)
    requires Modest(size) && n < 33 && first + n <= U64_MAX
    ensures RetainDirect(size, [Arrived(a, first, n)], a, Item(a, n, first + n)) == Ok([Arrived(a, first, n + 1)])
  {
    hide SortBy, StrictlyBy, RetainDirect, Row, Placed;
    var s, r := Arrived(a, first, n), Item(a, n, first + n);
    RowFacts(a, 0, first, n);
    RowFacts(a, 0, first, n + 1);
    assert r.id[0] == n;
    RetainOne(size, s, r);
    PlacedLast(s, r);
    if n == 32 { assert Row(a, 0, first, 33)[0] == Item(a, 0, first); }
  }

  lemma FirstArrival(size: seq<DirectStream> -> nat, a: Audience, r: DirectRecord)
    ensures RetainDirect(size, [], a, r) == RetainDirect(size, [FreshStream(a)], a, r)
  {
    hide Inserted, Shrunk;
    assert [] + [FreshStream(a)] == [FreshStream(a)];
    assert Position([FreshStream(a)], a) == Some(0);
  }

  lemma {:induction false} ArrivalsLead(size: seq<DirectStream> -> nat, a: Audience, first: nat, n: nat)
    requires Modest(size) && 1 <= n <= 33 && first + n <= U64_MAX + 1
    ensures AfterAll(size, [], Arrivals(a, first, n)) == [Arrived(a, first, n)]
  {
    hide RetainDirect, Row, AfterAll;
    var r := Item(a, n - 1, first + n - 1);
    AfterOneMore(size, [], Arrivals(a, first, n - 1), Retaining(a, r));
    ArrivedNext(size, a, first, n - 1);
    if n == 1 {
      assert AfterAll(size, [], []) == [] by { NothingAfter(size); }
      assert Arrived(a, first, 0) == FreshStream(a) by { NothingArrived(a, first); }
      FirstArrival(size, a, r);
    } else {
      ArrivalsLead(size, a, first, n - 1);
    }
  }

  lemma NothingAfter(size: seq<DirectStream> -> nat)
    ensures AfterAll(size, [], []) == []
  {
  }

  lemma NothingArrived(a: Audience, first: nat)
    requires first <= U64_MAX + 1
    ensures Arrived(a, first, 0) == FreshStream(a)
  {
  }

  /** What 33 arrivals leave: the first is settled, the others are retained. */
  lemma ArrivedHolds(a: Audience, first: nat)
    requires first + 33 <= U64_MAX + 1
    ensures var s := Arrived(a, first, 33);
            && Ordered(s) && Base(s) == first && Head(s) == first + 32 && (forall n :: Retains(s, n) <==> first < n <= first + 32)
  {
    hide Row, StrictlyBy, Carries;
    RowFacts(a, 1, first + 1, 32);
    var s := Arrived(a, first, 33);
    assert s.records[31] == Item(a, 32, first + 32);
  }

  /** A late arrival: numbers 8 to 40 arrive in order, so 8 is evicted and nothing
      is missing; then comes number 1. The floor falls from 8 to 1, and every
      member addressed is told of a gap of numbers already settled. */
  lemma LateArrivalExample(size: seq<DirectStream> -> nat, a: Audience, member: Id32)
    requires Modest(size) && member in a.recipients
    ensures var before := AfterAll(size, [], Arrivals(a, 8, 33));
            var late := AfterAll(size, [], Arrivals(a, 8, 33) + [Retaining(a, Item(a, 33, 1))]);
            && |before| == |late| == 1 && before[0].floor == 8 && late[0].floor == 1
            && NextGap(before, member) == Ok(None) && NextGap(late, member) == Ok(Some((a, Gap(1, 9))))
  {
    hide RetainDirect, Row, AfterAll, Placed, GapOf, Carries, StrictlyBy;
    ArrivalsLead(size, a, 8, 33);
    var s, r := Arrived(a, 8, 33), Item(a, 33, 1);
    AfterOneMore(size, [], Arrivals(a, 8, 33), Retaining(a, r));
    RowFacts(a, 1, 9, 32);
    assert r.id[0] == 33;
    RetainOne(size, s, r);
    var late := Placed(s, r);
    PlacedFirst(s, r);
    ArrivedHolds(a, 8);
    assert forall n :: Retains(late, n) <==> Retains(s, n);
    NoGapExactly(s);
    NoGapExactly(late);
    GapMeans(late);
    NotFull(late);
    assert Retains(late, 9) && !Retains(late, 2);
  }

  /** Numbers up to the last but one arrive, the largest is announced, and its gap
      is skipped. Then nothing is missing, and the same gap is still reported. */
  lemma LargestNumberReportsFalseGap(size: seq<DirectStream> -> nat, a: Audience, member: Id32)
    requires Modest(size) && member in a.recipients
    ensures var gap := Gap(U64_MAX - 1, U64_MAX);
            var told := Arrivals(a, U64_MAX - 33, 33) + [Announcing(a, U64_MAX)];
            var direct := AfterAll(size, [], told + [Skipping(a, gap)]);
            && NextGap(AfterAll(size, [], told), member) == Ok(Some((a, gap)))
            && |direct| == 1 && Base(direct[0]) == Head(direct[0]) && NextGap(direct, member) == Ok(Some((a, gap)))
  {
    hide Row, AfterAll, GapOf, Carries, StrictlyBy, Skipped, Ordered;
    var first, gap := U64_MAX - 33, Gap(U64_MAX - 1, U64_MAX);
    var arrivals := Arrivals(a, first, 33);
    ArrivalsLead(size, a, first, 33);
    ArrivedHolds(a, first);
    var s := Arrived(a, first, 33);
    AfterOneMore(size, [], arrivals, Announcing(a, U64_MAX));
    AnnouncedOne(s, U64_MAX);
    var told := s.(knownHead := U64_MAX);
    OrderedAlike(s, told);
    LastMissing(told, gap);
    AfterOneMore(size, [], arrivals + [Announcing(a, U64_MAX)], Skipping(a, gap));
    SkipIsGap(told, gap);
    var last := told.(recoveryFloor := U64_MAX);
    SkippedOne(told, gap, last);
    OrderedAlike(told, last);
    GapMeans(last);
    NoGapExactly(last);
    assert !Retains(last, U64_MAX);
  }

  lemma OrderedAlike(s: DirectStream, t: DirectStream)
    requires t.records == s.records
    ensures Ordered(t) == Ordered(s) && forall n :: Retains(t, n) <==> Retains(s, n)
  {
  }

  lemma AnnouncedOne(s: DirectStream, through: nonzero)
    requires Head(s) < through
    ensures Announced([s], s.audience, through) == Ok(Some([s.(knownHead := through)]))
  {
    hide Head;
    assert Position([s], s.audience) == Some(0) && [s][0 := s.(knownHead := through)] == [s.(knownHead := through)];
  }

  lemma SkippedOne(s: DirectStream, gap: Gap, next: DirectStream)
    requires Skipped(s, gap).Ok? && Skipped(s, gap).value.0 == next
    ensures SkipDirect([s], s.audience, gap).Ok? && SkipDirect([s], s.audience, gap).value.0 == [next]
  {
    hide Skipped;
    assert Position([s], s.audience) == Some(0) && [s][0 := next] == [next];
  }

  /** Only the largest number is missing. */
  lemma LastMissing(s: DirectStream, gap: Gap)
    requires Ordered(s) && Head(s) == U64_MAX && gap == Gap(U64_MAX - 1, U64_MAX)
    requires Base(s) < U64_MAX && forall n :: Retains(s, n) <==> Base(s) < n < U64_MAX
    ensures GapOf(s) == Ok(Some(gap))
  {
    hide Carries, Ordered, GapOf, Head, Base;
    GapMeans(s);
    NoGapExactly(s);
    assert !Retains(s, U64_MAX);
  }

  /** And when the largest number itself is retained, the complete stream reports
      an error. */
  lemma LargestNumberFails(size: seq<DirectStream> -> nat, a: Audience, member: Id32)
    requires Modest(size) && member in a.recipients
    ensures var direct := AfterAll(size, [], Arrivals(a, U64_MAX - 32, 33));
            && |direct| == 1 && (forall n :: Base(direct[0]) < n <= Head(direct[0]) ==> Retains(direct[0], n))
            && NextGap(direct, member).Err?
  {
    hide Row, AfterAll, GapOf, Carries, StrictlyBy;
    ArrivalsLead(size, a, U64_MAX - 32, 33);
    ArrivedHolds(a, U64_MAX - 32);
    var s := Arrived(a, U64_MAX - 32, 33);
    forall n | Start(s) <= n <= U64_MAX ensures Carries(s.records, n) { assert Retains(s, n); }
    GapMeans(s);
  }

  // ------------------------------------------- arriving above the floor

  ghost predicate AllAbove(direct: seq<DirectStream>) {
    forall i :: 0 <= i < |direct| ==> AboveFloor(direct[i])
  }

  /** A number is settled in the stream of its audience. */
  ghost predicate SettledIn(direct: seq<DirectStream>, a: Audience, n: int) {
    Position(direct, a).Some? && Settles(direct[Position(direct, a).value], n)
  }

  /** The object does its stream's floor no harm, or is a copy already held. */
  ghost predicate ArrivesAbove(direct: seq<DirectStream>, a: Audience, r: DirectRecord) {
    var at := Position(direct, a);
    r.sequence > 0 && (at.Some? ==> Harmless(direct[at.value], r.sequence) || r in direct[at.value].records)
  }

  /** Position by position: nothing settled is unsettled, floors stay honest. */
  ghost predicate Keeps(s: DirectStream, t: DirectStream) {
    t.audience == s.audience && AboveFloor(t) && forall n :: Settles(s, n) ==> Settles(t, n)
  }

  lemma PlacedKeeps(s: DirectStream, r: DirectRecord)
    requires AboveFloor(s) && |s.records| <= WINDOW && !Retains(s, r.sequence) && Harmless(s, r.sequence)
    ensures Keeps(s, Placed(s, r)) && Settles(Placed(s, r), r.sequence)
  {
    hide SortBy, StrictlyBy;
    PlacedKeepsFloor(s, r);
    var sorted := PlacedFront(s, r);
    var t := Placed(s, r);
    assert forall x :: x == r || x in s.records ==> x.sequence <= t.floor || x in t.records;
    forall n | Settles(s, n) ensures Settles(t, n) {
      if n > s.floor {
        var x :| x in s.records && x.sequence == n;
        assert x.sequence <= t.floor || Carries(t.records, n);
      }
    }
    assert r.sequence <= t.floor || Carries(t.records, r.sequence);
  }

  lemma ShrunkKeeps(size: seq<DirectStream> -> nat, direct: seq<DirectStream>)
    requires AllAbove(direct) && Shrunk(size, direct).Ok?
    ensures |Shrunk(size, direct).value| == |direct|
    ensures forall i :: 0 <= i < |direct| ==> Keeps(direct[i], Shrunk(size, direct).value[i])
  {
    hide AboveFloor, Settles, HeadKnown, Ordered, Shrunk;
    ShrunkNarrows(size, direct);
    forall i | 0 <= i < |direct| ensures Keeps(direct[i], Shrunk(size, direct).value[i]) {
      assert Narrowed(direct[i], Shrunk(size, direct).value[i]);
    }
  }

  lemma BegunAbove(direct: seq<DirectStream>, a: Audience)
    requires AllAbove(direct)
    ensures AllAbove(Begun(direct, a))
  {
    NothingOrdered(a);
    assert AboveFloor(FreshStream(a));
    hide AboveFloor;
  }

  /** Position by position, for the streams already there. */
  lemma KeepsSettled(direct: seq<DirectStream>, next: seq<DirectStream>, b: Audience, n: int)
    requires UniqueAudiences(next) && |direct| <= |next|
    requires forall i :: 0 <= i < |direct| ==> Keeps(direct[i], next[i])
    requires SettledIn(direct, b, n)
    ensures SettledIn(next, b, n)
  {
    hide Position, AboveFloor, Settles;
    PositionUnique(next, Position(direct, b).value);
  }

  lemma KeepsReflexive(s: DirectStream)
    requires AboveFloor(s)
    ensures Keeps(s, s)
  {
  }

  /** Retaining an object that arrives above its floor keeps every record above
      its floor, unsettles nothing, and settles the object's own number. */
  lemma RetainKeeps(size: seq<DirectStream> -> nat, direct: seq<DirectStream>, a: Audience, r: DirectRecord)
    requires Well(direct) && AllAbove(direct) && ArrivesAbove(direct, a, r) && RetainDirect(size, direct, a, r).Ok?
    ensures var next := RetainDirect(size, direct, a, r).value;
            && AllAbove(next) && SettledIn(next, a, r.sequence)
            && |direct| <= |next| && forall i :: 0 <= i < |direct| ==> Keeps(direct[i], next[i])
  {
    hide Shrunk, Placed, Position, AboveFloor, Settles;
    RetainWell(size, direct, a, r);
    BegunWell(direct, a);
    BegunAbove(direct, a);
    var begun, i := Begun(direct, a), Place(direct, a);
    var next := RetainDirect(size, direct, a, r).value;
    var placing := Inserted(begun[i], r).value;
    if placing.New? {
      PlacedKeeps(begun[i], r);
      var placed := begun[i := placing.stream];
      forall k | 0 <= k < |begun| ensures Keeps(begun[k], placed[k]) { if k != i { KeepsReflexive(begun[k]); } }
      ShrunkKeeps(size, placed);
      assert Keeps(placed[i], next[i]);
    } else {
      forall k | 0 <= k < |begun| ensures Keeps(begun[k], begun[k]) { KeepsReflexive(begun[k]); }
      HeldSettles(begun[i], r);
    }
    PositionUnique(next, i);
  }

  lemma HeldSettles(s: DirectStream, r: DirectRecord)
    requires r in s.records
    ensures Settles(s, r.sequence)
  {
  }
}
