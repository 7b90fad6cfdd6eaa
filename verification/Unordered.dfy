/** A run after which the application is handed a direct object too early: what
    `stage_scoped`, `retain_direct` and `pending_excluding` of
    crates/arachne-delivery/src/inbox.rs make of one late number. */
module Unordered {
  import opened Bytes
  import opened Ordering
  import opened Publication
  import opened Retention
  import opened Direct
  import opened Streams
  import opened Inbox
  import opened Delivery

  const TOPIC: Topic := [97]

  /** Who takes part, and how the streams are measured when saved. */
  datatype Cast = Cast(workspace: Id32, author: Id32, reader: Id32, size: seq<DirectStream> -> nat)

  function Scope(cast: Cast): Audience { Audience(cast.author, 1, TOPIC, [cast.reader]) }

  function CounterIn(body: seq<byte>): nonzero { if body == [] then 1 else body[0] as int + 1 }

  /** A reader whose objects carry their counter, less one, in their one byte. */
  function Reading(cast: Cast): Host {
    Host(cast.workspace, 0, Some(cast.reader),
         (aad: seq<byte>, body: seq<byte>) => if body == [] then None else Some(Opened(cast.author, cast.author, CounterIn(body), [])),
         (x: seq<byte>) => x, cast.size, (i: ObjectInbox) => true)
  }

  function IdOf(id: byte): Id16 { [id] + seq(15, _ => 0) }

  function ContextAt(cast: Cast, id: byte, n: nonzero): Context { Context(cast.workspace, 1, TOPIC, IdOf(id), Some(n)) }

  function Arrival(cast: Cast, id: byte, n: nonzero): InboxEvent { Staging(ContextAt(cast, id, n), [cast.reader], None, [id]) }

  function Ack(cast: Cast, id: byte): InboxEvent { Acknowledging(cast.author, TOPIC, id + 1, IdOf(id)) }

  function ReceiptAt(cast: Cast, id: byte, n: nonzero): Receipt {
    Receipt(id + 1, 1, IdOf(id), n, [cast.reader], None, [id], Some([id]), false)
  }

  function Of(cast: Cast, floor: u64, receipts: seq<Receipt>, d: DirectStream): ObjectInbox {
    ObjectInbox(cast.workspace, 0, [Stream(cast.author, TOPIC, floor, receipts)], [d])
  }

  function Nothing(cast: Cast): ObjectInbox { ObjectInbox(cast.workspace, 0, [], []) }

  // --------------------------------------------------------------- one arrival

  lemma Authentic(cast: Cast, inbox: ObjectInbox, id: byte, n: nonzero)
    requires inbox.workspace == cast.workspace && inbox.epoch == 0
    ensures Authenticated(Reading(cast), inbox, ContextAt(cast, id, n), [cast.reader], None, [id]) == Ok(Opened(cast.author, cast.author, id + 1, []))
    ensures ReceiptAad(Reading(cast), ContextAt(cast, id, n), [cast.reader], None).Ok?
  {
    hide AuthenticatedBytes, Concatenated;
    assert CanonicalRecipients([cast.reader]);
  }

  lemma LastStrict(receipts: seq<Receipt>, r: Receipt)
    requires StrictlyBy(ByCounter(), receipts) && forall x :: x in receipts ==> x.counter < r.counter
    ensures StrictlyBy(ByCounter(), receipts + [r])
  {
    var more := receipts + [r];
    forall i, j | 0 <= i < j < |more| ensures ByCounter()(more[i]) < ByCounter()(more[j]) {
      assert more[i] == receipts[i] && receipts[i] in receipts;
      if j < |receipts| { assert ByCounter()(receipts[i]) < ByCounter()(receipts[j]); }
    }
  }

  /** Pushing the highest counter yet. */
  lemma PushedLast(s: Stream, r: Receipt)
    requires StrictlyBy(ByCounter(), s.receipts) && forall x :: x in s.receipts ==> x.counter < r.counter
    requires |s.receipts| < WINDOW || (|s.receipts| == WINDOW && s.receipts[0].pending.None?)
    ensures Pushed(s, r) == Ok(if |s.receipts| < WINDOW then s.(receipts := s.receipts + [r])
                               else s.(floor := s.receipts[0].counter, receipts := s.receipts[1..] + [r]))
  {
    hide SortBy, StrictlyBy;
    var more := s.receipts + [r];
    LastStrict(s.receipts, r);
    SortBySorted(ByCounter(), more);
    assert |s.receipts| > 0 ==> more[1..] == s.receipts[1..] + [r];
  }

  lemma FindOne(s: Stream, author: Id32, topic: Topic)
    requires (s.author, s.topic) == (author, topic)
    ensures Find([s], author, topic) == Some(0) && View([s], author, topic) == s
  {
  }

  /** An object of a new counter, id and number, on the only stream. */
  lemma StagedNext(cast: Cast, floor: u64, receipts: seq<Receipt>, d: DirectStream, id: byte, n: nonzero, then_: DirectStream)
    requires StrictlyBy(ByCounter(), receipts) && floor <= id && forall x :: x in receipts ==> x.counter <= id && x.id != IdOf(id)
    requires |receipts| < WINDOW || (|receipts| == WINDOW && receipts[0].pending.None?)
    requires RetainDirect(cast.size, [d], Scope(cast), Item(Scope(cast), id, n)) == Ok([then_])
    ensures Next(Reading(cast), Of(cast, floor, receipts, d), Arrival(cast, id, n))
         == if |receipts| < WINDOW then Of(cast, floor, receipts + [ReceiptAt(cast, id, n)], then_)
            else Of(cast, receipts[0].counter, receipts[1..] + [ReceiptAt(cast, id, n)], then_)
  {
    hide RetainDirect, Pushed, Find, StrictlyBy, Authenticated, Screen;
    var host, inbox, c := Reading(cast), Of(cast, floor, receipts, d), ContextAt(cast, id, n);
    var s, r := inbox.streams[0], ReceiptAt(cast, id, n);
    Authentic(cast, inbox, id, n);
    FindOne(s, cast.author, TOPIC);
    Screened(inbox, s, id, c, [cast.reader], [id]);
    PushedLast(s, r);
    assert NewReceipt(host, id + 1, c, [cast.reader], None, [id]) == r;
    assert Copy(c, [id]) == Item(Scope(cast), id, n);
    var t := Pushed(s, r).value;
    FindOne(t, cast.author, TOPIC);
    assert [s][0 := t] == [t];
  }

  lemma Screened(inbox: ObjectInbox, s: Stream, id: byte, c: Context, recipients: seq<Id32>, digest: seq<byte>)
    requires s.floor <= id && c.id == IdOf(id) && forall x :: x in s.receipts ==> x.counter <= id && x.id != IdOf(id)
    ensures Screen(inbox, s, id + 1, c, recipients, None, digest).None?
  {
    var known := FindReceipt(s.receipts, id + 1);
    hide FindReceipt, IdOf;
    forall i | 0 <= i < |s.receipts| ensures s.receipts[i].counter <= id { assert s.receipts[i] in s.receipts; }
  }

  /** The first object opens both streams. */
  lemma StagedFirst(cast: Cast, n: nonzero, then_: DirectStream)
    requires RetainDirect(cast.size, [], Scope(cast), Item(Scope(cast), 0, n)) == Ok([then_])
    ensures Next(Reading(cast), Nothing(cast), Arrival(cast, 0, n)) == Of(cast, 0, [ReceiptAt(cast, 0, n)], then_)
  {
    hide RetainDirect, Pushed, StrictlyBy, Authenticated;
    var host, inbox, c := Reading(cast), Nothing(cast), ContextAt(cast, 0, n);
    var s, r := Stream(cast.author, TOPIC, 0, []), ReceiptAt(cast, 0, n);
    Authentic(cast, inbox, 0, n);
    assert Find([], cast.author, TOPIC) == None;
    assert StrictlyBy(ByCounter(), s.receipts) by { NothingSorted(); }
    PushedLast(s, r);
    assert [] + [r] == [r];
    assert NewReceipt(host, 1, c, [cast.reader], None, [0]) == r;
    assert Copy(c, [0]) == Item(Scope(cast), 0, n);
    var t := s.(receipts := [r]);
    assert Put([], t) == [] + [t] == [t];
  }

  lemma NothingSorted()
    ensures StrictlyBy(ByCounter(), [])
  {
  }

  /** Acknowledging the oldest receipt. */
  lemma AckedNext(cast: Cast, floor: u64, receipts: seq<Receipt>, d: DirectStream, id: byte)
    requires receipts != [] && receipts[0].counter == id + 1 && receipts[0].id == IdOf(id)
    ensures Next(Reading(cast), Of(cast, floor, receipts, d), Ack(cast, id))
         == Of(cast, floor, receipts[0 := receipts[0].(pending := None, rejected := false)], d)
  {
    hide Find, IdOf;
    var s := Stream(cast.author, TOPIC, floor, receipts);
    FindOne(s, cast.author, TOPIC);
    assert FindReceipt(receipts, id + 1) == Some(0);
    var t := s.(receipts := receipts[0 := receipts[0].(pending := None, rejected := false)]);
    FindOne(t, cast.author, TOPIC);
    assert [s][0 := t] == [t];
  }

  // ------------------------------------------------------------------- the run

  /** Receipts of the objects with these ids, numbered from 9 on. */
  function Receipts(cast: Cast, id: nat, n: nat): (r: seq<Receipt>)
    requires id + n <= 32
    ensures |r| == n && forall i :: 0 <= i < n ==> r[i] == ReceiptAt(cast, id + i, 9 + id + i)
  {
    seq(n, i requires 0 <= i < n => ReceiptAt(cast, id + i, 9 + id + i))
  }

  lemma ReceiptsFacts(cast: Cast, id: nat, n: nat)
    requires id + n <= 32
    ensures StrictlyBy(ByCounter(), Receipts(cast, id, n))
    ensures forall x :: x in Receipts(cast, id, n) ==> id < x.counter <= id + n && x.id[0] as int + 1 == x.counter && x.pending.Some?
    ensures id + n < 32 ==> Receipts(cast, id, n) + [ReceiptAt(cast, id + n, 9 + id + n)] == Receipts(cast, id, n + 1)
    ensures n > 0 ==> Receipts(cast, id, n)[1..] == Receipts(cast, id + 1, n - 1)
  {
  }

  /** The inbox after n events, oldest first. */
  function Trail(host: Host, start: ObjectInbox, events: seq<InboxEvent>): (states: seq<ObjectInbox>)
    ensures |states| == |events| + 1 && states[0] == start
  {
    if events == [] then [start] else
    var before := Trail(host, start, events[..|events| - 1]);
    before + [Next(host, before[|before| - 1], events[|events| - 1])]
  }

  function End(host: Host, start: ObjectInbox, events: seq<InboxEvent>): ObjectInbox {
    var states := Trail(host, start, events); states[|events|]
  }

  lemma EndNext(host: Host, start: ObjectInbox, events: seq<InboxEvent>, e: InboxEvent)
    ensures End(host, start, events + [e]) == Next(host, End(host, start, events), e)
  {
    hide Next;
    assert (events + [e])[..|events|] == events;
  }

  lemma {:induction false} TrailIsRun(host: Host, start: ObjectInbox, events: seq<InboxEvent>)
    requires start.streams == []
    ensures IsRun(host, Trail(host, start, events), events)
  {
    hide Next;
    if events != [] {
      var front := events[..|events| - 1];
      TrailIsRun(host, start, front);
      var before, states := Trail(host, start, front), Trail(host, start, events);
      forall i | 0 <= i < |events| ensures states[i + 1] == Next(host, states[i], events[i]) {
        if i < |front| { assert states[i] == before[i] && states[i + 1] == before[i + 1] && events[i] == front[i]; }
      }
    }
  }

  /** Numbers 9 to 40, in order, under counters 1 to 32. */
  function Orderly(cast: Cast, n: nat): (es: seq<InboxEvent>)
    requires n <= 32
    ensures |es| == n
  {
    if n == 0 then [] else Orderly(cast, n - 1) + [Arrival(cast, n - 1, 8 + n)]
  }

  lemma {:induction false} OrderlyLeads(cast: Cast, n: nat)
    requires Modest(cast.size) && 1 <= n <= 32
    ensures End(Reading(cast), Nothing(cast), Orderly(cast, n)) == Of(cast, 0, Receipts(cast, 0, n), Arrived(Scope(cast), 9, n))
  {
    hide Next, End, Arrived, RetainDirect, Receipts, Reading;
    EndNext(Reading(cast), Nothing(cast), Orderly(cast, n - 1), Arrival(cast, n - 1, 8 + n));
    ArrivedNext(cast.size, Scope(cast), 9, n - 1);
    if n == 1 {
      assert End(Reading(cast), Nothing(cast), []) == Nothing(cast) by { EndNothing(cast); }
      assert Arrived(Scope(cast), 9, 0) == FreshStream(Scope(cast)) by { NothingArrived(Scope(cast), 9); }
      FirstArrival(cast.size, Scope(cast), Item(Scope(cast), 0, 9));
      StagedFirst(cast, 9, Arrived(Scope(cast), 9, 1));
      assert Receipts(cast, 0, 1) == [ReceiptAt(cast, 0, 9)];
    } else {
      OrderlyLeads(cast, n - 1);
      ReceiptsFacts(cast, 0, n - 1);
      assert forall x :: x in Receipts(cast, 0, n - 1) ==> x.id[0] != IdOf(n - 1)[0];
      StagedNext(cast, 0, Receipts(cast, 0, n - 1), Arrived(Scope(cast), 9, n - 1), n - 1, 8 + n, Arrived(Scope(cast), 9, n));
    }
  }

  lemma EndNothing(cast: Cast)
    ensures End(Reading(cast), Nothing(cast), []) == Nothing(cast)
  {
    hide Next;
  }

  /** Then 1 is acknowledged and 8 arrives, 2 is acknowledged and 1 arrives. */
  function Late(cast: Cast): seq<InboxEvent> {
    Orderly(cast, 32) + [Ack(cast, 0)] + [Arrival(cast, 32, 8)] + [Ack(cast, 1)] + [Arrival(cast, 33, 1)]
  }

  /** The direct stream at the end: 9 to 40 retained, the floor at 1. */
  function LateStream(cast: Cast): DirectStream { DirectStream(Scope(cast), 1, 0, 40, Row(Scope(cast), 0, 9, 32)) }

  function LateReceipts(cast: Cast): seq<Receipt> {
    Receipts(cast, 2, 30) + [ReceiptAt(cast, 32, 8)] + [ReceiptAt(cast, 33, 1)]
  }

  /** A number below all of a full window. */
  lemma RetainBelow(cast: Cast, floor: u64, id: byte, n: nonzero)
    requires Modest(cast.size) && n < 9 && id >= 32
    ensures var d := DirectStream(Scope(cast), floor, 0, 40, Row(Scope(cast), 0, 9, 32));
            RetainDirect(cast.size, [d], Scope(cast), Item(Scope(cast), id, n)) == Ok([d.(floor := n)])
  {
    hide RetainDirect, Placed, StrictlyBy, Row;
    var d, r := DirectStream(Scope(cast), floor, 0, 40, Row(Scope(cast), 0, 9, 32)), Item(Scope(cast), id, n);
    RowFacts(Scope(cast), 0, 9, 32);
    assert r.id[0] == id;
    RetainOne(cast.size, d, r);
    PlacedFirst(d, r);
  }

  function Acked(r: Receipt): Receipt { r.(pending := None, rejected := false) }

  /** A window whose oldest receipt was acknowledged, and what follows it. */
  lemma AckedRow(cast: Cast, id: nat, more: seq<Receipt>, next: byte)
    requires id < 32 && StrictlyBy(ByCounter(), Receipts(cast, id, 32 - id) + more)
    requires forall x :: x in more ==> x.counter <= next && x.id[0] as int + 1 == x.counter
    requires 32 <= next
    ensures var rs := Receipts(cast, id, 32 - id) + more; var acked := rs[0 := Acked(rs[0])];
            && StrictlyBy(ByCounter(), acked) && acked[1..] == Receipts(cast, id + 1, 31 - id) + more
            && forall x :: x in acked ==> x.counter <= next && x.id != IdOf(next)
  {
    ReceiptsFacts(cast, id, 32 - id);
    var rs := Receipts(cast, id, 32 - id) + more;
    var acked := rs[0 := Acked(rs[0])];
    forall i, j | 0 <= i < j < |acked| ensures ByCounter()(acked[i]) < ByCounter()(acked[j]) { assert ByCounter()(rs[i]) < ByCounter()(rs[j]); }
    hide StrictlyBy, Receipts;
    forall x | x in acked ensures x.counter <= next && x.id != IdOf(next) {
      var i :| 0 <= i < |acked| && acked[i] == x;
      assert rs[i] in rs && x.counter == rs[i].counter && x.id == rs[i].id;
      assert x.id[0] as int + 1 == x.counter && IdOf(next)[0] == next;
    }
  }

  lemma Appended(cast: Cast, id: nat, last: Receipt)
    requires id < 32 && last.counter > 32
    ensures StrictlyBy(ByCounter(), Receipts(cast, id, 32 - id) + [last])
  {
    ReceiptsFacts(cast, id, 32 - id);
    LastStrict(Receipts(cast, id, 32 - id), last);
  }

  lemma LateEighth(cast: Cast)
    requires Modest(cast.size)
    ensures var s := DirectStream(Scope(cast), 8, 0, 40, Row(Scope(cast), 0, 9, 32));
            End(Reading(cast), Nothing(cast), Orderly(cast, 32) + [Ack(cast, 0)] + [Arrival(cast, 32, 8)]) == Of(cast, 1, Receipts(cast, 1, 31) + [ReceiptAt(cast, 32, 8)], s)
  {
    hide Next, End, RetainDirect, Receipts, Reading, Row, StrictlyBy;
    var first := Orderly(cast, 32);
    OrderlyLeads(cast, 32);
    EndNext(Reading(cast), Nothing(cast), first, Ack(cast, 0));
    EndNext(Reading(cast), Nothing(cast), first + [Ack(cast, 0)], Arrival(cast, 32, 8));
    var rs, d := Receipts(cast, 0, 32), Arrived(Scope(cast), 9, 32);
    ReceiptsFacts(cast, 0, 32);
    assert rs[0] == ReceiptAt(cast, 0, 9) && rs + [] == rs;
    AckedNext(cast, 0, rs, d, 0);
    AckedRow(cast, 0, [], 32);
    RetainBelow(cast, 0, 32, 8);
    StagedNext(cast, 0, rs[0 := Acked(rs[0])], d, 32, 8, d.(floor := 8));
    assert Receipts(cast, 1, 31) + [] == Receipts(cast, 1, 31);
  }

  lemma LateEnd(cast: Cast)
    requires Modest(cast.size)
    ensures End(Reading(cast), Nothing(cast), Late(cast)) == Of(cast, 2, LateReceipts(cast), LateStream(cast))
  {
    hide Next, End, RetainDirect, Receipts, Reading, Row, StrictlyBy;
    var before := Orderly(cast, 32) + [Ack(cast, 0)] + [Arrival(cast, 32, 8)];
    LateEighth(cast);
    EndNext(Reading(cast), Nothing(cast), before, Ack(cast, 1));
    EndNext(Reading(cast), Nothing(cast), before + [Ack(cast, 1)], Arrival(cast, 33, 1));
    var last, d := ReceiptAt(cast, 32, 8), DirectStream(Scope(cast), 8, 0, 40, Row(Scope(cast), 0, 9, 32));
    var rs := Receipts(cast, 1, 31) + [last];
    assert rs[0] == ReceiptAt(cast, 1, 10);
    AckedNext(cast, 1, rs, d, 1);
    Appended(cast, 1, last);
    AckedRow(cast, 1, [last], 33);
    RetainBelow(cast, 8, 33, 1);
    StagedNext(cast, 1, rs[0 := Acked(rs[0])], d, 33, 1, d.(floor := 1));
  }

  // ------------------------------------------------------ what is handed over

  lemma {:induction false} PassedPrefix(host: Host, inbox: ObjectInbox, s: Stream, k: nat, m: nat)
    requires k <= m <= |s.receipts| && forall i :: k <= i < m ==> PassedOver(inbox, [], s, s.receipts[i])
    ensures PendingIn(host, inbox, [], s, s.receipts[k..]) == PendingIn(host, inbox, [], s, s.receipts[m..])
    decreases m - k
  {
    hide PassedOver, HandOver;
    if k < m {
      assert s.receipts[k..][0] == s.receipts[k] && s.receipts[k..][1..] == s.receipts[k + 1..];
      PassedPrefix(host, inbox, s, k + 1, m);
    }
  }

  lemma LateBlocked(cast: Cast, n: u64)
    ensures Blocked([LateStream(cast)], Scope(cast), n) <==> n >= 9
  {
    hide Row;
    var d := LateStream(cast);
    assert d.records[0] == Item(Scope(cast), 0, 9);
    assert Obstructs(d.records, 2, n) <==> n >= 9;
    assert d in [d];
  }

  lemma LateHandsOver(cast: Cast)
    ensures var inbox := Of(cast, 2, LateReceipts(cast), LateStream(cast));
            PendingExcluding(Reading(cast), inbox, []) == Ok(Some(PendingObject(ContextAt(cast, 32, 8), Opened(cast.author, cast.author, 33, []), 33, [cast.reader], None)))
  {
    hide Receipts, Blocked, LateStream, ReceiptAad;
    var host, inbox := Reading(cast), Of(cast, 2, LateReceipts(cast), LateStream(cast));
    var s := inbox.streams[0];
    forall i | 0 <= i < 30 ensures PassedOver(inbox, [], s, s.receipts[i]) {
      assert s.receipts[i] == ReceiptAt(cast, 2 + i, 11 + i);
      LateBlocked(cast, 11 + i);
    }
    PassedPrefix(host, inbox, s, 0, 30);
    var r := s.receipts[30];
    assert r == ReceiptAt(cast, 32, 8) && s.receipts[30..][0] == r && s.receipts[0..] == s.receipts;
    LateBlocked(cast, 8);
    Authentic(cast, inbox, 32, 8);
    assert ContextOf(inbox, s, r) == ContextAt(cast, 32, 8);
    assert HandOver(host, inbox, s, r) == Ok(PendingObject(ContextAt(cast, 32, 8), Opened(cast.author, cast.author, 33, []), 33, [cast.reader], None));
    assert inbox.streams[1..] == [];
  }

  /** Order is lost: numbers 9 to 40 arrive, then 8, whose copy is evicted at once,
      then 1, which takes the floor down to 1. Now number 8 is above both floors
      and is handed over, though none of the numbers 2 to 8 is retained. */
  lemma LateArrivalUnorders(cast: Cast)
    requires Modest(cast.size)
    ensures var host, events := Reading(cast), Late(cast);
            var states := Trail(host, Nothing(cast), events);
            var last := states[|events|];
            var handed := PendingExcluding(host, last, []);
            && IsRun(host, states, events) && states[0].direct == []
            && handed.Ok? && handed.value.Some? && handed.value.value.recipients == [cast.reader] && handed.value.value.context.sequence == Some(8)
            && |last.direct| == 1 && last.direct[0].audience == Scope(cast) && Base(last.direct[0]) == 1
            && forall n :: 2 <= n <= 8 ==> !Retains(last.direct[0], n)
  {
    hide Next, Trail, PendingExcluding, Reading, Row, Carries, Receipts, Orderly;
    TrailIsRun(Reading(cast), Nothing(cast), Late(cast));
    LateEnd(cast);
    LateHandsOver(cast);
    RowFacts(Scope(cast), 0, 9, 32);
  }
}
