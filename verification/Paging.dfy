/** Catching up over the wire. Models `serve_available_range` of
    crates/arachne-delivery/src/wire.rs and a reader that asks for one range
    after the other: exactly when it reaches the head, and how it can stall. */
module Paging {
  import opened Bytes
  import opened Ordering
  import opened Publication
  import opened Retention
  import opened Selection
  import opened Wire

  datatype AvailableQuery = AvailableQuery(workspace: Id32, author: Id32, epoch: u64, after: u64, topics: set<Topic>)

  datatype Available = Nothing | Range(query: RangeQuery, reply: seq<byte>)

  predicate Owned(log: Log, a: AvailableQuery) { (a.workspace, a.author, a.epoch) == (log.workspace, log.author, log.epoch) }

  function QueryFor(a: AvailableQuery, through: u64): RangeQuery {
    RangeQuery(a.workspace, a.author, a.epoch, a.after, through, a.topics)
  }

  /** The envelope: its own header and the written query. */
  function EnvelopeSize(topics: set<Topic>): nat { 10 + 102 + |Flat(Listed(topics))| }

  lemma {:induction false} CollectBounded(log: Log, after: u64, through: u64, topics: seq<Topic>, found: seq<Record>)
    requires |found| <= MAX_RECOVERY_PACKETS
    ensures var r := Collect(log, after, through, topics, found); r.Found? ==> |r.records| <= MAX_RECOVERY_PACKETS
    decreases |topics|
  {
    if topics != [] {
      if topics[0] !in log.topics { CollectBounded(log, after, through, topics[1..], found); } else {
        var more := found + Within(log.topics[topics[0]].records, after, through);
        if |more| <= MAX_RECOVERY_PACKETS { CollectBounded(log, after, through, topics[1..], more); }
      }
    }
  }

  lemma ServeBounded(sec: Security, log: Log, authorized: bool, q: RangeQuery)
    ensures var s := Serve(sec, log, authorized, q); s.Ok? && s.value.Offers? ==> |s.value.packets| <= MAX_RECOVERY_PACKETS
  {
    hide Collect, SortBy, NoRepeats, PacketsSize, Sequenced;
    var found := Collect(log, q.after, q.through, Listed(q.topics), []);
    CollectBounded(log, q.after, q.through, Listed(q.topics), []);
    if found.Found? {
      assert |multiset(SortBy(BySequence(), found.records))| == |multiset(found.records)|;
    }
  }

  /** `serve_available_range`. */
  function ServeAvailable(sec: Security, log: Log, authorized: bool, a: AvailableQuery): Result<Available> {
    if !authorized || !Owned(log, a) || a.after >= log.head then Ok(Nothing) else
    var q := QueryFor(a, NextThrough(log, a.after));
    var served :- Serve(sec, log, true, q);
    ServeBounded(sec, log, true, q);
    var reply := ServedBytes(served);
    if a.topics == {} || |a.topics| > MAX_TOPICS || EnvelopeSize(a.topics) + |reply| > MAX_REPLY_BYTES then Ok(Nothing) else Ok(Range(q, reply))
  }

  /** What a reader gets out of the answer: packets up to a number, or nothing. */
  function Fetched(sec: Security, log: Log, authorized: bool, a: AvailableQuery): (r: Option<(u64, seq<Recovered>)>)
    ensures r.Some? ==> a.after < r.value.0 <= log.head
  {
    match ServeAvailable(sec, log, authorized, a)
    case Ok(Range(q, reply)) =>
      (match Verify(sec, q, reply)
       case Ok(Offered(ps)) => Some((q.through, ps))
       case _ => None)
    case _ => None
  }

  /** Asking again from where the last answer ended, until the head is reached;
      None when some answer brings nothing, for then the next one brings nothing
      either. */
  function CaughtUp(sec: Security, log: Log, authorized: bool, a: AvailableQuery): Option<seq<Recovered>>
    decreases log.head - a.after
  {
    if a.after >= log.head then Some([]) else
    match Fetched(sec, log, authorized, a)
    case None => None
    case Some((through, ps)) =>
      match CaughtUp(sec, log, authorized, a.(after := through))
      case None => None
      case Some(rest) => Some(ps + rest)
  }

  // --------------------------------------------------------- when it is enough

  /** The bytes of the page after a cursor, were it offered. */
  ghost function PageSize(sec: Security, past: seq<Record>, a: AvailableQuery, through: u64): nat
    requires through <= |past|
  {
    var ps := Carried(Window(past, a.topics, a.after, through));
    EnvelopeSize(a.topics) + 9 + |sec.sign(RequestOf(sec, QueryFor(a, through)), Digests(sec, ps))| + PacketsSize(ps, Sequenced(ps))
  }

  /** Every page from a cursor to the head fits its envelope. */
  ghost predicate PagesFit(sec: Security, log: Log, past: seq<Record>, a: AvailableQuery)
    requires |past| == log.head
    decreases log.head - a.after
  {
    a.after < log.head ==>
      var next := NextThrough(log, a.after);
      PageSize(sec, past, a, next) <= MAX_REPLY_BYTES && PagesFit(sec, log, past, a.(after := next))
  }

  lemma DeclinedIsNotOffered(sec: Security, q: RangeQuery, e: Rejection)
    ensures var v := Verify(sec, q, Rejected(e)); v.Ok? ==> v.value.Declined?
  {
    if q.after < q.through && 0 < |q.topics| <= MAX_TOPICS { DeclineReadBack(sec, q, e); }
  }

  /** Nothing is fetched without the policy's consent, or of another index. */
  lemma FetchedIsAdmitted(sec: Security, log: Log, authorized: bool, a: AvailableQuery)
    ensures Fetched(sec, log, authorized, a).Some? ==> Admits(log, authorized, QueryFor(a, log.head))
    ensures !Admits(log, authorized, QueryFor(a, log.head)) ==> ServeAvailable(sec, log, authorized, a) == Ok(Nothing)
  {
    hide Serve, Verify, ServedBytes, EnvelopeSize;
  }

  ghost predicate Asks(log: Log, a: AvailableQuery) {
    Owned(log, a) && 0 < |a.topics| <= MAX_TOPICS && Floor(log, Listed(a.topics)) <= a.after
  }

  /** A page that does not fit its envelope brings nothing. */
  lemma PageRefused(sec: Security, log: Log, past: seq<Record>, a: AvailableQuery)
    requires Faithful(log, past) && CollisionFree(sec) && Asks(log, a) && a.after < log.head
    requires |past| == log.head && PageSize(sec, past, a, NextThrough(log, a.after)) > MAX_REPLY_BYTES
    ensures Fetched(sec, log, true, a) == None
  {
    hide Faithful, Select, Window, Digests, RequestOf, NoRepeats, PacketsSize, Sequenced, Verify, Floor, Listed, EnvelopeSize, Rejected, ReplyBytes, CollisionFree;
    var q := QueryFor(a, NextThrough(log, a.after));
    PageAvailable(log, past, a.after, a.topics);
    ServeNeverFails(sec, log, past, true, q);
    ServeBounded(sec, log, true, q);
    var served := Serve(sec, log, true, q).value;
    if served.Offers? { ReplySize(served.offer, served.packets); } else { DeclinedIsNotOffered(sec, q, served.error); }
  }

  /** The author's offer for the page opens. */
  ghost predicate PageSigned(sec: Security, past: seq<Record>, a: AvailableQuery, through: u64)
    requires through <= |past|
  {
    OfferOpens(sec, QueryFor(a, through), Carried(Window(past, a.topics, a.after, through)))
  }

  /** The next page arrives, complete, if and only if it fits its envelope. */
  lemma PageArrives(sec: Security, log: Log, past: seq<Record>, a: AvailableQuery)
    requires Faithful(log, past) && CollisionFree(sec) && Asks(log, a) && a.after < log.head
    requires |past| == log.head && PageSigned(sec, past, a, NextThrough(log, a.after))
    ensures var next := NextThrough(log, a.after);
            Fetched(sec, log, true, a) == if PageSize(sec, past, a, next) <= MAX_REPLY_BYTES then Some((next, Carried(Window(past, a.topics, a.after, next)))) else None
  {
    hide Faithful, Select, Window, Digests, RequestOf, NoRepeats, PacketsSize, Sequenced, Verify, Floor, Listed, EnvelopeSize, Rejected, ReplyBytes, CollisionFree, OfferOpens;
    var next := NextThrough(log, a.after);
    var q := QueryFor(a, next);
    if PageSize(sec, past, a, next) > MAX_REPLY_BYTES {
      PageRefused(sec, log, past, a);
    } else {
      PageAvailable(log, past, a.after, a.topics);
      ServeNeverFails(sec, log, past, true, q);
      ServeBounded(sec, log, true, q);
      ServedIsVerified(sec, log, past, true, q);
      var served := Serve(sec, log, true, q).value;
      ReplySize(served.offer, served.packets);
    }
  }

  /** The author's offers for every page from a cursor to the head open. */
  ghost predicate PagesSigned(sec: Security, log: Log, past: seq<Record>, a: AvailableQuery)
    requires |past| == log.head
    decreases log.head - a.after
  {
    a.after < log.head ==>
      var next := NextThrough(log, a.after);
      PageSigned(sec, past, a, next) && PagesSigned(sec, log, past, a.(after := next))
  }

  /** Catch-up over the wire reaches the head, with each selected publication
      exactly once and in order, if and only if every page on the way fits. */
  lemma {:induction false} ReachesHeadExactly(sec: Security, log: Log, past: seq<Record>, a: AvailableQuery)
    requires Faithful(log, past) && CollisionFree(sec) && Asks(log, a) && a.after <= log.head
    requires |past| == log.head && PagesSigned(sec, log, past, a)
    ensures CaughtUp(sec, log, true, a) == if PagesFit(sec, log, past, a) then Some(Carried(Window(past, a.topics, a.after, log.head))) else None
    decreases log.head - a.after
  {
    hide Faithful, Window, Fetched, PageSize, Floor, Listed, CollisionFree, PageSigned;
    FaithfulNumbered(log, past);
    if a.after < log.head {
      var next := NextThrough(log, a.after);
      PageArrives(sec, log, past, a);
      ReachesHeadExactly(sec, log, past, a.(after := next));
      WindowSplitAt(past, a.topics, a.after, next, log.head);
      CarriedSum(Window(past, a.topics, a.after, next), Window(past, a.topics, next, log.head));
    } else {
      WindowLength(past, a.topics, a.after, log.head);
      assert Window(past, a.topics, a.after, log.head) == [];
    }
  }

  // These hypotheses can be met: whatever an author published on some topics,
  // there are signatures and a collision-free hash under which every page opens.

  function Identity(): seq<byte> -> Digest { (x: seq<byte>) => x }

  ghost function Blank(): Security { Security(Identity(), (r: Request, ds: seq<Digest>) => [], (r: Request, o: seq<byte>) => None) }

  ghost function Signed(past: seq<Record>, topics: set<Topic>, r: Request): seq<Digest> {
    if r.through <= |past| then Digests(Blank(), Carried(Window(past, topics, r.after, r.through))) else []
  }

  ghost function SignerOf(past: seq<Record>, topics: set<Topic>): Security {
    Security(Identity(), (r: Request, ds: seq<Digest>) => [], (r: Request, o: seq<byte>) => Some(Signed(past, topics, r)))
  }

  lemma SignerSigns(past: seq<Record>, a: AvailableQuery, through: u64)
    requires through <= |past|
    ensures CollisionFree(SignerOf(past, a.topics)) && PageSigned(SignerOf(past, a.topics), past, a, through)
  {
    hide Window, SelectionDigest, Framed;
    var sec := SignerOf(past, a.topics);
    forall x, y | sec.hash(x) == sec.hash(y) ensures x == y { assert sec.hash(x) == x && sec.hash(y) == y; }
    var ps := Carried(Window(past, a.topics, a.after, through));
    assert Digests(sec, ps) == Digests(Blank(), ps);
  }

  lemma {:induction false} SignersExist(log: Log, past: seq<Record>, a: AvailableQuery)
    requires |past| == log.head
    ensures var sec := SignerOf(past, a.topics); CollisionFree(sec) && PagesSigned(sec, log, past, a)
    decreases log.head - a.after
  {
    hide PageSigned, CollisionFree, SignerOf;
    if a.after < log.head {
      var next := NextThrough(log, a.after);
      SignerSigns(past, a, next);
      SignersExist(log, past, a.(after := next));
    } else {
      SignerSigns(past, a, log.head);
    }
  }

  lemma CarriedSum(rs: seq<Record>, ss: seq<Record>)
    ensures Carried(rs + ss) == Carried(rs) + Carried(ss)
  {
  }

  // ------------------------------------------------------- a bound that is enough

  const SMALL: nat := 3600

  lemma {:induction false} FlatSize(topics: seq<Topic>)
    ensures |Flat(topics)| <= 129 * |topics|
  {
    if topics != [] { FlatSize(topics[1..]); }
  }

  lemma {:induction false} SmallPackets(ps: seq<Recovered>, sequenced: bool)
    requires forall i :: 0 <= i < |ps| ==> |ps[i].ciphertext| <= SMALL
    ensures PacketsSize(ps, sequenced) <= (165 + SMALL) * |ps|
  {
    if ps != [] { SmallPackets(ps[1..], sequenced); }
  }

  /** Publications of at most 3600 bytes never stall a reader. */
  lemma {:induction false} SmallPagesFit(sec: Security, log: Log, past: seq<Record>, a: AvailableQuery)
    requires |past| == log.head && Numbered(past) && |a.topics| <= MAX_TOPICS && PagesSigned(sec, log, past, a)
    requires forall i :: 0 <= i < |past| ==> |past[i].ciphertext| <= SMALL
    ensures PagesFit(sec, log, past, a)
    decreases log.head - a.after
  {
    hide Window, Digests, RequestOf, PacketsSize, Sequenced, Flat, Listed;
    if a.after < log.head {
      var next := NextThrough(log, a.after);
      var rs := Window(past, a.topics, a.after, next);
      WindowLength(past, a.topics, a.after, next);
      forall i | 0 <= i < |rs| ensures |Carried(rs)[i].ciphertext| <= SMALL { WindowMember(past, a.topics, a.after, next, rs[i]); }
      SmallPackets(Carried(rs), Sequenced(Carried(rs)));
      FlatSize(Listed(a.topics));
      SmallPagesFit(sec, log, past, a.(after := next));
    }
  }

  lemma WindowMember(past: seq<Record>, topics: set<Topic>, after: nat, through: nat, r: Record)
    requires through <= |past| && r in Window(past, topics, after, through)
    ensures exists i :: 0 <= i < |past| && past[i] == r
  {
    PickMember(past[..through], topics, after, r);
    var i :| 0 <= i < |past[..through]| && past[..through][i] == r;
    assert past[i] == r;
  }

  // --------------------------------------------------------------- the stall

  lemma {:induction false} PacketsWeigh(ps: seq<Recovered>, sequenced: bool)
    requires forall i :: 0 <= i < |ps| ==> |ps[i].ciphertext| == MAX_APPLICATION_CIPHERTEXT
    ensures PacketsSize(ps, sequenced) >= MAX_APPLICATION_CIPHERTEXT * |ps|
  {
    if ps != [] { PacketsWeigh(ps[1..], sequenced); }
  }

  /** The n-th of a row of publications of the largest size on one topic. */
  function Large(workspace: Id32, n: nat): Record
    requires n < 256
  {
    Record(n + 1, Context(workspace, 0, [97], [n] + seq(15, _ => 0), None), seq(MAX_APPLICATION_CIPHERTEXT, _ => 0))
  }

  function Row(workspace: Id32, n: nat): (rs: seq<Record>)
    requires n <= 8
    ensures |rs| == n && forall i :: 0 <= i < n ==> rs[i] == Large(workspace, i)
  {
    if n == 0 then [] else Row(workspace, n - 1) + [Large(workspace, n - 1)]
  }

  /** The index after n of them: nothing has been evicted yet. */
  function Filled(workspace: Id32, author: Id32, epoch: u64, n: nat): Log
    requires n <= 8
  {
    var rs := Row(workspace, n);
    Log(workspace, author, epoch, n, Weights(rs), if n == 0 then map[] else map[[97] := History(0, rs)])
  }

  lemma LargeWeighs(workspace: Id32, n: nat)
    requires n < 256
    ensures Weight(Large(workspace, n)) == MAX_APPLICATION_CIPHERTEXT + 97
  {
    hide AuthenticatedBytes;
  }

  lemma {:induction false} RowWeighs(workspace: Id32, n: nat)
    requires n <= 8
    ensures Weights(Row(workspace, n)) == n * (MAX_APPLICATION_CIPHERTEXT + 97)
  {
    hide Weight, Weights;
    if n == 0 { assert Weights([]) == 0 by { NoWeight(); } } else {
      RowWeighs(workspace, n - 1);
      LargeWeighs(workspace, n - 1);
      WeightsAppend(Row(workspace, n - 1), Large(workspace, n - 1));
    }
  }

  lemma NoWeight()
    ensures Weights([]) == 0
  {
  }

  lemma RowNotHeld(workspace: Id32, author: Id32, epoch: u64, n: nat)
    requires n < 8
    ensures !HoldsId(Filled(workspace, author, epoch, n), Large(workspace, n).context.id)
  {
    hide Weights;
    var log := Filled(workspace, author, epoch, n);
    forall t, r | t in log.topics && r in log.topics[t].records ensures r.context.id != Large(workspace, n).context.id {
      var i :| 0 <= i < n && r == Large(workspace, i);
      assert r.context.id[0] == i && Large(workspace, n).context.id[0] == n;
    }
  }

  lemma RowGrows(workspace: Id32, n: nat)
    requires n < 8
    ensures Row(workspace, n + 1) == Row(workspace, n) + [Large(workspace, n)]
    ensures Large(workspace, n).context.topic == [97] && Large(workspace, n).sequence == n + 1
  {
  }

  lemma FilledOnce(workspace: Id32, author: Id32, epoch: u64, n: nat)
    requires n < 8
    ensures Push(Filled(workspace, author, epoch, n), Large(workspace, n)) == Filled(workspace, author, epoch, n + 1)
  {
    hide Weights, Weight;
    var rs, r := Row(workspace, n), Large(workspace, n);
    WeightsAppend(rs, r);
    RowGrows(workspace, n);
    hide Row, Large;
    var pushed, next := Push(Filled(workspace, author, epoch, n), r), Filled(workspace, author, epoch, n + 1);
    assert pushed.topics == next.topics;
  }

  /** Appending them one by one really leads there. */
  lemma {:induction false} FilledReached(workspace: Id32, author: Id32, epoch: u64, n: nat)
    requires n <= 8
    ensures Reached(Filled(workspace, author, epoch, n), Row(workspace, n))
  {
    hide Reached, Weights, Append;
    if n == 0 {
      EmptyReached(workspace, author, epoch);
      assert Filled(workspace, author, epoch, 0) == Retention.Empty(workspace, author, epoch) by { NoWeight(); }
    } else {
      var log, r := Filled(workspace, author, epoch, n - 1), Large(workspace, n - 1);
      FilledReached(workspace, author, epoch, n - 1);
      AppendFills(workspace, author, epoch, n - 1);
      AppendReached(log, Row(workspace, n - 1), r.context, r.ciphertext);
    }
  }

  lemma NotRefused(workspace: Id32, author: Id32, epoch: u64, n: nat)
    requires n < 8
    ensures var log, r := Filled(workspace, author, epoch, n), Large(workspace, n);
            Refusal(log, r.context, r.ciphertext).None? && NewRecord(log, r.context, r.ciphertext) == r
  {
    hide Weights, HoldsId, Row;
    RowNotHeld(workspace, author, epoch, n);
  }

  lemma CappedFills(workspace: Id32, author: Id32, epoch: u64, n: nat)
    requires n < 8 && Accounted(Filled(workspace, author, epoch, n))
    ensures Capped(Filled(workspace, author, epoch, n), Large(workspace, n)) == Filled(workspace, author, epoch, n + 1)
  {
    hide Weights, Weight, Push, Row, Accounted;
    FilledOnce(workspace, author, epoch, n);
  }

  lemma AppendFills(workspace: Id32, author: Id32, epoch: u64, n: nat)
    requires n < 8 && Reached(Filled(workspace, author, epoch, n), Row(workspace, n))
    ensures var log, r := Filled(workspace, author, epoch, n), Large(workspace, n);
            Accounted(log) && Append(log, r.context, r.ciphertext) == Ok(Filled(workspace, author, epoch, n + 1)) && NewRecord(log, r.context, r.ciphertext) == r
  {
    hide Weights, Reached, Accounted, Capped, Row, Refusal, Large, Append, Faithful;
    var log, r := Filled(workspace, author, epoch, n), Large(workspace, n);
    ReachedFaithful(log, Row(workspace, n));
    FaithfulAccounted(log, Row(workspace, n));
    NotRefused(workspace, author, epoch, n);
    CappedFills(workspace, author, epoch, n);
    RowWeighs(workspace, n + 1);
    NothingToShrink(log, r.context, r.ciphertext);
  }

  lemma NothingToShrink(log: Log, c: Context, ciphertext: seq<byte>)
    requires Accounted(log) && Refusal(log, c, ciphertext).None? && Capped(log, NewRecord(log, c, ciphertext)).bytes <= MAX_RETAINED_BYTES
    ensures Append(log, c, ciphertext) == Ok(Capped(log, NewRecord(log, c, ciphertext)))
  {
    hide Accounted, Capped;
  }

  lemma {:induction false} RowWindow(workspace: Id32, n: nat)
    requires n <= 8
    ensures Pick(Row(workspace, n), {[97]}, 0) == Row(workspace, n)
  {
    if n > 0 {
      assert Row(workspace, n)[..n - 1] == Row(workspace, n - 1);
      RowWindow(workspace, n - 1);
    }
  }

  /** It can stall: eight publications of the largest size are within every
      bound of the index and the selection of the page succeeds, yet a reader
      that starts from nothing is never offered it as an available range. */
  lemma StallExample(sec: Security, workspace: Id32, author: Id32, epoch: u64)
    requires CollisionFree(sec)
    ensures var log := Filled(workspace, author, epoch, 8);
            var a := AvailableQuery(workspace, author, epoch, 0, {[97]});
            && Reached(log, Row(workspace, 8)) && Select(log, 0, 8, {[97]}) == Found(Row(workspace, 8))
            && Fetched(sec, log, true, a) == None && CaughtUp(sec, log, true, a) == None
  {
    hide Reached, Faithful, Row, PacketsSize, Digests, RequestOf, Select, Fetched, CollisionFree, Weights, EnvelopeSize, Sequenced, Pick;
    var log, past := Filled(workspace, author, epoch, 8), Row(workspace, 8);
    var a := AvailableQuery(workspace, author, epoch, 0, {[97]});
    FilledReached(workspace, author, epoch, 8);
    ReachedFaithful(log, past);
    FloorOfRow(workspace, author, epoch);
    assert past[..8] == past;
    RowWindow(workspace, 8);
    PageAvailable(log, past, 0, a.topics);
    PacketsWeigh(Carried(past), Sequenced(Carried(past)));
    PageRefused(sec, log, past, a);
  }

  lemma FloorOfRow(workspace: Id32, author: Id32, epoch: u64)
    ensures Floor(Filled(workspace, author, epoch, 8), Listed({[97]})) == 0
  {
    hide Row, Weights;
    var topics := Listed({[97]});
    assert |topics| == 1 && topics[0] in topics;
    assert Floor(Filled(workspace, author, epoch, 8), topics[1..]) == 0;
  }
}
