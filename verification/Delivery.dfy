/** Which pending object is handed to the application next. Models
    `pending_excluding` of crates/arachne-delivery/src/inbox.rs and the order it
    keeps within a scope. */
module Delivery {
  import opened Bytes
  import opened Ordering
  import opened Publication
  import opened Retention
  import opened Direct
  import opened Streams
  import opened Inbox

  /** A caller's hint for one call: leave this scope alone. */
  datatype Deferred = Deferred(member: Id32, revision: u64, topic: Topic, recipients: seq<Id32>)

  datatype PendingObject = PendingObject(context: Context, message: Opened, counter: u64, recipients: seq<Id32>, current: Option<CurrentMetadata>)

  predicate ValidHint(d: Deferred) {
    && d.revision != 0 && |d.recipients| <= 64
    && forall i :: 0 < i < |d.recipients| ==> Less(d.recipients[i - 1], d.recipients[i])
  }

  predicate IsDeferred(hints: seq<Deferred>, s: Stream, r: Receipt) {
    Deferred(s.author, r.revision, s.topic, r.recipients) in hints
  }

  /** The running `expected` of one stream: a later number waits behind a hole. */
  predicate Obstructs(records: seq<DirectRecord>, expected: u64, n: u64) {
    if records == [] then false else
    if records[0].sequence > expected then n >= records[0].sequence else
    Obstructs(records[1..], if records[0].sequence == expected then Saturating(expected, 1) else expected, n)
  }

  predicate Blocked(direct: seq<DirectStream>, a: Audience, n: u64) {
    exists d :: d in direct && d.audience == a && Obstructs(d.records, Saturating(Base(d), 1), n)
  }

  /** The receipt is passed over in this call. */
  predicate PassedOver(inbox: ObjectInbox, hints: seq<Deferred>, s: Stream, r: Receipt) {
    || r.pending.None?
    || IsDeferred(hints, s, r)
    || (r.recipients != [] && r.sequence != 0 && Blocked(inbox.direct, AudienceOf(s, r), r.sequence))
  }

  function HandOver(host: Host, inbox: ObjectInbox, s: Stream, r: Receipt): Result<PendingObject>
    requires r.pending.Some?
  {
    var c := ContextOf(inbox, s, r);
    var aad :- ReceiptAad(host, c, r.recipients, r.current);
    match host.unprotect(aad, r.pending.value)
    case None => Err(Undecryptable)
    case Some(o) =>
      if o.counter != r.counter || o.member != s.author || host.hash(r.pending.value) != r.digest then Err(ConflictingIdentity)
      else Ok(PendingObject(c, o, r.counter, r.recipients, r.current))
  }

  function PendingIn(host: Host, inbox: ObjectInbox, hints: seq<Deferred>, s: Stream, receipts: seq<Receipt>): Result<Option<PendingObject>> {
    if receipts == [] then Ok(None) else
    if PassedOver(inbox, hints, s, receipts[0]) then PendingIn(host, inbox, hints, s, receipts[1..]) else
    var p :- HandOver(host, inbox, s, receipts[0]);
    Ok(Some(p))
  }

  function PendingOver(host: Host, inbox: ObjectInbox, hints: seq<Deferred>, streams: seq<Stream>): Result<Option<PendingObject>> {
    if streams == [] then Ok(None) else
    var p :- PendingIn(host, inbox, hints, streams[0], streams[0].receipts);
    if p.Some? then Ok(p) else PendingOver(host, inbox, hints, streams[1..])
  }

  /** `pending_excluding`. */
  function PendingExcluding(host: Host, inbox: ObjectInbox, hints: seq<Deferred>): Result<Option<PendingObject>> {
    if (inbox.workspace, inbox.epoch) != (host.workspace, host.epoch) then Err(NotCurrent) else
    if |hints| > 64 || exists d :: d in hints && !ValidHint(d) then Err(InvalidHint) else
    PendingOver(host, inbox, hints, inbox.streams)
  }

  method FindPending(host: Host, inbox: ObjectInbox, hints: seq<Deferred>) returns (result: Result<Option<PendingObject>>)
    ensures result == PendingExcluding(host, inbox, hints)
  {
    hide PassedOver, HandOver, ValidHint;
    if (inbox.workspace, inbox.epoch) != (host.workspace, host.epoch) { return Err(NotCurrent); }
    if |hints| > 64 || exists d :: d in hints && !ValidHint(d) { return Err(InvalidHint); }
    var i := 0;
    while i < |inbox.streams|
      invariant i <= |inbox.streams|
      invariant PendingOver(host, inbox, hints, inbox.streams[i..]) == PendingOver(host, inbox, hints, inbox.streams)
    {
      var s := inbox.streams[i];
      assert inbox.streams[i..][0] == s && inbox.streams[i..][1..] == inbox.streams[i + 1..];
      var j := 0;
      while j < |s.receipts|
        invariant j <= |s.receipts|
        invariant PendingIn(host, inbox, hints, s, s.receipts[j..]) == PendingIn(host, inbox, hints, s, s.receipts)
      {
        assert s.receipts[j..][0] == s.receipts[j] && s.receipts[j..][1..] == s.receipts[j + 1..];
        if !PassedOver(inbox, hints, s, s.receipts[j]) {
          NotPassed(inbox, hints, s, s.receipts[j]);
          var p := HandOver(host, inbox, s, s.receipts[j]);
          if p.Err? { return Err(p.error); }
          return Ok(Some(p.value));
        }
        j := j + 1;
      }
      i := i + 1;
    }
    result := Ok(None);
  }

  lemma NotPassed(inbox: ObjectInbox, hints: seq<Deferred>, s: Stream, r: Receipt)
    requires !PassedOver(inbox, hints, s, r)
    ensures r.pending.Some?
  {
  }

  // --------------------------------------------------- what was handed over

  /** The receipt behind a handed-over object: it was pending and not passed
      over, and every receipt before it in its stream was. */
  ghost predicate HandedOver(host: Host, inbox: ObjectInbox, hints: seq<Deferred>, p: PendingObject, s: Stream, j: nat) {
    && s in inbox.streams && j < |s.receipts|
    && !PassedOver(inbox, hints, s, s.receipts[j]) && s.receipts[j].pending.Some? && HandOver(host, inbox, s, s.receipts[j]) == Ok(p)
    && forall i :: 0 <= i < j ==> PassedOver(inbox, hints, s, s.receipts[i])
  }

  lemma {:induction false} PendingInMeans(host: Host, inbox: ObjectInbox, hints: seq<Deferred>, s: Stream, k: nat) returns (j: nat)
    requires k <= |s.receipts| && forall i :: 0 <= i < k ==> PassedOver(inbox, hints, s, s.receipts[i])
    ensures var r := PendingIn(host, inbox, hints, s, s.receipts[k..]);
            r.Ok? && r.value.Some? ==>
              && j < |s.receipts| && !PassedOver(inbox, hints, s, s.receipts[j]) && s.receipts[j].pending.Some?
              && HandOver(host, inbox, s, s.receipts[j]) == Ok(r.value.value)
              && forall i :: 0 <= i < j ==> PassedOver(inbox, hints, s, s.receipts[i])
    decreases |s.receipts| - k
  {
    hide PassedOver, HandOver;
    j := k;
    if k < |s.receipts| {
      assert s.receipts[k..][0] == s.receipts[k] && s.receipts[k..][1..] == s.receipts[k + 1..];
      if PassedOver(inbox, hints, s, s.receipts[k]) {
        j := PendingInMeans(host, inbox, hints, s, k + 1);
      } else {
        NotPassed(inbox, hints, s, s.receipts[k]);
      }
    }
  }

  lemma {:induction false} PendingOverMeans(host: Host, inbox: ObjectInbox, hints: seq<Deferred>, k: nat) returns (s: Stream, j: nat)
    requires k <= |inbox.streams|
    ensures var r := PendingOver(host, inbox, hints, inbox.streams[k..]);
            r.Ok? && r.value.Some? ==> HandedOver(host, inbox, hints, r.value.value, s, j)
    decreases |inbox.streams| - k
  {
    hide PassedOver, HandOver;
    s, j := Stream(inbox.workspace, [97], 0, []), 0;
    if k < |inbox.streams| {
      s := inbox.streams[k];
      assert inbox.streams[k..][0] == s && inbox.streams[k..][1..] == inbox.streams[k + 1..];
      assert s.receipts[0..] == s.receipts;
      j := PendingInMeans(host, inbox, hints, s, 0);
      var here := PendingIn(host, inbox, hints, s, s.receipts);
      if here.Ok? && here.value.None? { s, j := PendingOverMeans(host, inbox, hints, k + 1); }
    }
  }

  /** An object is handed over only from a receipt that waits and is not passed
      over, and never before an earlier receipt of its stream that is neither. */
  lemma HandedOverMeans(host: Host, inbox: ObjectInbox, hints: seq<Deferred>) returns (s: Stream, j: nat)
    ensures var r := PendingExcluding(host, inbox, hints);
            r.Ok? && r.value.Some? ==> HandedOver(host, inbox, hints, r.value.value, s, j)
  {
    hide PassedOver, HandOver, PendingOver, ValidHint;
    s, j := PendingOverMeans(host, inbox, hints, 0);
    assert inbox.streams[0..] == inbox.streams;
  }

  lemma {:induction false} PendingInNone(host: Host, inbox: ObjectInbox, hints: seq<Deferred>, s: Stream, receipts: seq<Receipt>)
    ensures PendingIn(host, inbox, hints, s, receipts) == Ok(None) <==> forall i :: 0 <= i < |receipts| ==> PassedOver(inbox, hints, s, receipts[i])
  {
    hide PassedOver, HandOver;
    if receipts != [] {
      PendingInNone(host, inbox, hints, s, receipts[1..]);
      assert receipts == [receipts[0]] + receipts[1..];
    }
  }

  ghost predicate AllPassed(inbox: ObjectInbox, hints: seq<Deferred>, s: Stream) {
    forall i :: 0 <= i < |s.receipts| ==> PassedOver(inbox, hints, s, s.receipts[i])
  }

  lemma {:induction false} PendingOverNone(host: Host, inbox: ObjectInbox, hints: seq<Deferred>, streams: seq<Stream>)
    ensures PendingOver(host, inbox, hints, streams) == Ok(None) <==> forall k :: 0 <= k < |streams| ==> AllPassed(inbox, hints, streams[k])
  {
    hide PassedOver, HandOver, PendingIn;
    if streams != [] {
      PendingInNone(host, inbox, hints, streams[0], streams[0].receipts);
      PendingOverNone(host, inbox, hints, streams[1..]);
      assert streams == [streams[0]] + streams[1..];
    }
  }

  /** Nothing is handed over if and only if, for a current inbox and valid hints,
      every receipt is resolved, deferred, or behind a hole of its stream. */
  lemma NothingHandedOver(host: Host, inbox: ObjectInbox, hints: seq<Deferred>)
    requires (inbox.workspace, inbox.epoch) == (host.workspace, host.epoch) && |hints| <= 64 && forall d :: d in hints ==> ValidHint(d)
    ensures PendingExcluding(host, inbox, hints) == Ok(None) <==> forall k :: 0 <= k < |inbox.streams| ==> AllPassed(inbox, hints, inbox.streams[k])
  {
    hide AllPassed, PendingOver, ValidHint;
    PendingOverNone(host, inbox, hints, inbox.streams);
  }

  lemma {:induction false} HandOverFails(host: Host, inbox: ObjectInbox, hints: seq<Deferred>, streams: seq<Stream>)
    ensures PendingOver(host, inbox, hints, streams) != Err(InvalidHint) && PendingOver(host, inbox, hints, streams) != Err(NotCurrent)
  {
    hide PassedOver, HandOver, PendingIn;
    if streams != [] {
      HandOverFailsIn(host, inbox, hints, streams[0], streams[0].receipts);
      HandOverFails(host, inbox, hints, streams[1..]);
    }
  }

  lemma {:induction false} HandOverFailsIn(host: Host, inbox: ObjectInbox, hints: seq<Deferred>, s: Stream, receipts: seq<Receipt>)
    ensures PendingIn(host, inbox, hints, s, receipts) != Err(InvalidHint) && PendingIn(host, inbox, hints, s, receipts) != Err(NotCurrent)
  {
    hide Blocked, DirectBytes, AuthenticatedBytes, LiveBytes;
    if receipts != [] {
      AadFails(host, ContextOf(inbox, s, receipts[0]), receipts[0].recipients, receipts[0].current);
      hide ReceiptAad;
      HandOverFailsIn(host, inbox, hints, s, receipts[1..]);
    }
  }

  lemma AadFails(host: Host, c: Context, recipients: seq<Id32>, current: Option<CurrentMetadata>)
    ensures ReceiptAad(host, c, recipients, current) != Err(InvalidHint) && ReceiptAad(host, c, recipients, current) != Err(NotCurrent)
  {
  }

  /** A call is refused for its hints exactly when there are more than 64 of them,
      or one has no revision, more than 64 recipients, or recipients out of order;
      and as not current exactly when the inbox is of another epoch. */
  lemma HintsRefused(host: Host, inbox: ObjectInbox, hints: seq<Deferred>)
    ensures var current := inbox.workspace == host.workspace && inbox.epoch == host.epoch;
            var usable := |hints| <= 64 && forall d :: d in hints ==> d.revision != 0 && |d.recipients| <= 64 && Increasing<seq<byte>>(Less, d.recipients);
            && (PendingExcluding(host, inbox, hints) == Err(NotCurrent) <==> !current)
            && (PendingExcluding(host, inbox, hints) == Err(InvalidHint) <==> current && !usable)
  {
    hide PendingOver, Less;
    HandOverFails(host, inbox, hints, inbox.streams);
    forall d | d in hints ensures (forall i :: 0 < i < |d.recipients| ==> Less(d.recipients[i - 1], d.recipients[i])) <==> Increasing<seq<byte>>(Less, d.recipients) {
      Stepwise(d.recipients);
    }
    hide Increasing;
  }

  /** Increasing step by step is increasing throughout. */
  lemma {:induction false} Stepwise(ids: seq<Id32>)
    ensures (forall i :: 0 < i < |ids| ==> Less(ids[i - 1], ids[i])) <==> Increasing<seq<byte>>(Less, ids)
  {
    hide Less;
    LessIsTotalOrder();
    if |ids| > 1 {
      Stepwise(ids[1..]);
      assert forall i :: 0 <= i < |ids| - 1 ==> ids[1..][i] == ids[i + 1];
      if forall i :: 0 < i < |ids| ==> Less(ids[i - 1], ids[i]) {
        assert forall i :: 0 < i < |ids[1..]| ==> Less(ids[1..][i - 1], ids[1..][i]);
        forall i, j | 0 <= i < j < |ids| ensures Less(ids[i], ids[j]) {
          if i > 0 { assert Less(ids[1..][i - 1], ids[1..][j - 1]); }
          else if j > 1 { assert Less(ids[0], ids[1]) && Less(ids[1..][0], ids[1..][j - 1]); }
        }
      }
    }
  }

  /** No object of a deferred scope is handed over; and within one scope nothing
      overtakes: an earlier object of the same scope that still waits can only be
      a direct one held back by a hole, with a larger number. */
  lemma NoOvertaking(host: Host, inbox: ObjectInbox, hints: seq<Deferred>, p: PendingObject, s: Stream, j: nat, i: nat)
    requires HandedOver(host, inbox, hints, p, s, j) && i < j
    ensures p.context.topic == s.topic && p.message.member == s.author && p.counter == s.receipts[j].counter && p.recipients == s.receipts[j].recipients
    ensures !IsDeferred(hints, s, s.receipts[j])
    ensures s.receipts[i].pending.Some? && s.receipts[i].revision == s.receipts[j].revision && s.receipts[i].recipients == s.receipts[j].recipients ==>
              p.recipients != [] && s.receipts[i].sequence != 0 && (s.receipts[j].sequence != 0 ==> s.receipts[j].sequence < s.receipts[i].sequence)
  {
    hide Obstructs;
    var earlier, given := s.receipts[i], s.receipts[j];
    if earlier.pending.Some? && earlier.revision == given.revision && earlier.recipients == given.recipients && given.sequence != 0 {
      assert PassedOver(inbox, hints, s, earlier);
      var d :| d in inbox.direct && d.audience == AudienceOf(s, earlier) && Obstructs(d.records, Saturating(Base(d), 1), earlier.sequence);
      ObstructsUpward(d.records, Saturating(Base(d), 1), given.sequence, earlier.sequence);
    }
  }

  /** No overtaking, over whole runs and whole scopes: whichever stream holds it, an
      object of the scope of the one handed over, of a lower counter and still
      waiting, is a direct one behind a hole, with a larger number. */
  lemma NothingOvertakes(host: Host, states: seq<ObjectInbox>, events: seq<InboxEvent>, n: nat, hints: seq<Deferred>, u: Stream, earlier: Receipt)
    requires IsRun(host, states, events) && n <= |events| && u in states[n].streams && earlier in u.receipts && earlier.pending.Some?
    ensures var r := PendingExcluding(host, states[n], hints);
            r.Ok? && r.value.Some? ==>
              var p := r.value.value;
              && Deferred(p.message.member, p.context.revision, p.context.topic, p.recipients) !in hints
              && ((u.author, u.topic, earlier.revision, earlier.recipients) == (p.message.member, p.context.topic, p.context.revision, p.recipients)
                  && earlier.counter < p.counter ==>
                    && p.recipients != [] && earlier.sequence != 0
                    && (p.context.sequence.Some? ==> p.context.sequence.value < earlier.sequence))
  {
    hide Next, PendingExcluding, PassedOver, Find, StrictlyBy;
    RunSound(host, states, events, n);
    var s, j := HandedOverMeans(host, states[n], hints);
    var r := PendingExcluding(host, states[n], hints);
    if r.Ok? && r.value.Some? {
      var p := r.value.value;
      HandedScope(host, states[n], hints, p, s, j);
      if (u.author, u.topic) == (s.author, s.topic) && earlier.counter < p.counter {
        assert u == s;
        var i :| 0 <= i < |s.receipts| && s.receipts[i] == earlier;
        CountersRise(s.receipts, i, j);
        NoOvertaking(host, states[n], hints, p, s, j, i);
      }
    }
  }

  /** The handed-over object is of its receipt's scope, which is not deferred. */
  lemma HandedScope(host: Host, inbox: ObjectInbox, hints: seq<Deferred>, p: PendingObject, s: Stream, j: nat)
    requires HandedOver(host, inbox, hints, p, s, j)
    ensures (p.message.member, p.context.topic, p.context.revision, p.recipients, p.counter) == (s.author, s.topic, s.receipts[j].revision, s.receipts[j].recipients, s.receipts[j].counter)
    ensures p.context.sequence == if s.receipts[j].sequence == 0 then None else Some(s.receipts[j].sequence)
    ensures Deferred(p.message.member, p.context.revision, p.context.topic, p.recipients) !in hints
  {
    hide Blocked;
  }

  lemma CountersRise(receipts: seq<Receipt>, i: nat, j: nat)
    requires StrictlyBy(ByCounter(), receipts) && i < |receipts| && j < |receipts| && receipts[i].counter < receipts[j].counter
    ensures i < j
  {
    forall k, l | 0 <= k < l < |receipts| ensures receipts[k].counter < receipts[l].counter { assert ByCounter()(receipts[k]) < ByCounter()(receipts[l]); }
  }

  /** What obstructs a number obstructs every larger one. */
  lemma {:induction false} ObstructsUpward(records: seq<DirectRecord>, expected: u64, m: u64, n: u64)
    requires Obstructs(records, expected, n) && !Obstructs(records, expected, m)
    ensures m < n
  {
    if records[0].sequence <= expected {
      ObstructsUpward(records[1..], if records[0].sequence == expected then Saturating(expected, 1) else expected, m, n);
    }
  }

  // ------------------------------------------------------ what holds one back

  /** A number at or above `from` is missing below a retained one up to `n`. */
  ghost predicate Holed(records: seq<DirectRecord>, from: int, n: int) {
    exists m, k :: from <= m < k <= n && !Carries(records, m) && Carries(records, k)
  }

  lemma HoledHere(first: DirectRecord, rest: seq<DirectRecord>, records: seq<DirectRecord>, expected: u64, n: u64)
    requires records == [first] + rest && expected < first.sequence && forall r :: r in rest ==> first.sequence < r.sequence
    ensures Holed(records, expected, n) <==> first.sequence <= n
  {
    assert forall r :: r in records ==> first.sequence <= r.sequence;
    assert first in records && Carries(records, first.sequence) && !Carries(records, expected);
  }

  lemma HoledLater(first: DirectRecord, rest: seq<DirectRecord>, records: seq<DirectRecord>, expected: u64, n: u64)
    requires records == [first] + rest && first.sequence <= expected && forall r :: r in rest ==> first.sequence < r.sequence
    ensures var onward := if first.sequence == expected then Saturating(expected, 1) else expected;
            Holed(records, expected, n) <==> Holed(rest, onward, n)
  {
    hide Carries;
    CarriesCons(first, rest, records);
  }

  lemma {:induction false} ObstructsExactly(records: seq<DirectRecord>, expected: u64, n: u64)
    requires StrictlyBy(Ordinal(), records)
    ensures Obstructs(records, expected, n) <==> Holed(records, expected, n)
  {
    hide Holed;
    if records == [] {
      NeverHoled(expected, n);
    } else {
      var first, rest := records[0], records[1..];
      assert records == [first] + rest;
      assert forall r :: r in rest ==> Ordinal()(first) < Ordinal()(r);
      if first.sequence > expected {
        HoledHere(first, rest, records, expected, n);
      } else {
        HoledLater(first, rest, records, expected, n);
        ObstructsExactly(rest, if first.sequence == expected then Saturating(expected, 1) else expected, n);
      }
    }
  }

  lemma NeverHoled(from: int, n: int)
    ensures !Holed([], from, n)
  {
  }

  /** A waiting receipt is passed over exactly when its scope is deferred, or it is
      a sequenced direct one and its audience's stream lacks a number above both
      floors below one that it retains up to the receipt's own. */
  lemma PassedExactly(inbox: ObjectInbox, hints: seq<Deferred>, s: Stream, r: Receipt)
    requires Well(inbox.direct) && r.pending.Some?
    ensures PassedOver(inbox, hints, s, r) <==>
              || Deferred(s.author, r.revision, s.topic, r.recipients) in hints
              || (r.recipients != [] && r.sequence != 0
                  && exists d :: d in inbox.direct && d.audience == Audience(s.author, r.revision, s.topic, r.recipients)
                      && Holed(d.records, Base(d) + 1, r.sequence))
  {
    hide Obstructs, Holed;
    forall d | d in inbox.direct ensures Obstructs(d.records, Saturating(Base(d), 1), r.sequence) <==> Holed(d.records, Base(d) + 1, r.sequence) {
      ObstructsExactly(d.records, Saturating(Base(d), 1), r.sequence);
      HoledAtEnd(d.records, r.sequence);
    }
  }

  lemma HoledAtEnd(records: seq<DirectRecord>, n: u64)
    ensures !Holed(records, U64_MAX, n) && !Holed(records, U64_MAX + 1, n)
  {
  }

  /** A waiting receipt is handed over as an object exactly when its bytes open under
      what binds its own context, recipients and metadata, as made by its stream's
      author under its counter, and still have its digest. */
  lemma HandOverExactly(host: Host, inbox: ObjectInbox, s: Stream, r: Receipt, p: PendingObject)
    requires r.pending.Some?
    ensures HandOver(host, inbox, s, r) == Ok(p) <==>
              && p.context == Context(inbox.workspace, r.revision, s.topic, r.id, if r.sequence == 0 then None else Some(r.sequence))
              && p.recipients == r.recipients && p.current == r.current && p.counter == r.counter
              && p.message.counter == r.counter && p.message.member == s.author && host.hash(r.pending.value) == r.digest
              && exists aad :: Binds(host, aad, p.context, r.recipients, r.current) && host.unprotect(aad, r.pending.value) == Some(p.message)
  {
    hide AuthenticatedBytes, DirectBytes, LiveBytes;
    var aad := ReceiptAad(host, ContextOf(inbox, s, r), r.recipients, r.current);
    if aad.Ok? { assert Binds(host, aad.value, ContextOf(inbox, s, r), r.recipients, r.current); }
  }

  /** A prepared object is handed over, from its receipt, as exactly what was
      staged: the same context, recipients and metadata, and the opened message. */
  lemma StagedIsHandedOver(host: Host, inbox: ObjectInbox, c: Context, recipients: seq<Id32>, current: Option<CurrentMetadata>, body: seq<byte>)
    requires Sound(inbox)
    requires var stage := Stage(host, inbox, c, recipients, current, body); stage.Ok? && stage.value.Prepared?
    ensures var next := Stage(host, inbox, c, recipients, current, body).value.inbox;
            exists o: Opened, r :: var s := View(next.streams, o.member, c.topic);
              && Authenticated(host, inbox, c, recipients, current, body) == Ok(o) && r in s.receipts && r.pending == Some(body)
              && HandOver(host, next, s, r) == Ok(PendingObject(c, o, o.counter, recipients, current))
  {
    var next, o, r := PreparedReceipt(host, inbox, c, recipients, current, body);
    hide Sound, Stage, View, ReceiptAad;
    assert r in View(next.streams, o.member, c.topic).receipts;
  }

  // ------------------------------------------------- no hole below what is given

  lemma {:induction false} UnobstructedRow(records: seq<DirectRecord>, expected: u64, n: u64)
    requires StrictlyBy(Ordinal(), records) && Carries(records, n) && expected <= n && !Obstructs(records, expected, n)
    ensures forall m :: expected <= m <= n ==> Carries(records, m)
  {
    hide Carries;
    assert records != [] by { if records == [] { NothingCarried(n); } }
    var first, rest := records[0], records[1..];
    assert records == [first] + rest;
    assert forall r :: r in rest ==> Ordinal()(first) < Ordinal()(r);
    CarriesCons(first, rest, records);
    LaterCarried(first, rest);
    if first.sequence < expected {
      UnobstructedRow(rest, expected, n);
    } else if first.sequence == expected < n {
      UnobstructedRow(rest, expected + 1, n);
    }
  }

  /** A retained number that nothing obstructs has everything below it. */
  lemma UnobstructedIsContiguous(d: DirectStream, n: u64)
    requires Ordered(d) && Retains(d, n) && n > Base(d) && !Obstructs(d.records, Saturating(Base(d), 1), n)
    ensures forall m :: Base(d) < m <= n ==> Retains(d, m)
  {
    hide Carries, Obstructs, Base;
    UnobstructedRow(d.records, Base(d) + 1, n);
  }

  // ------------------------------------------- every direct receipt is anchored

  ghost predicate AnchoredReceipt(direct: seq<DirectStream>, s: Stream, r: Receipt) {
    r.recipients != [] && r.sequence != 0 ==> SettledIn(direct, AudienceOf(s, r), r.sequence)
  }

  /** Every sequenced direct object received is retained or below its floor. */
  ghost predicate Anchored(inbox: ObjectInbox) {
    && Well(inbox.direct) && AllAbove(inbox.direct)
    && forall s, r :: s in inbox.streams && r in s.receipts ==> AnchoredReceipt(inbox.direct, s, r)
  }

  /** Of a direct object handed over above both floors: every number from the
      floors up to its own is retained if and only if its own copy is. */
  lemma HandedInOrder(host: Host, inbox: ObjectInbox, hints: seq<Deferred>, p: PendingObject, s: Stream, j: nat, at: nat)
    requires Well(inbox.direct) && HandedOver(host, inbox, hints, p, s, j)
    requires p.recipients != [] && p.context.sequence.Some?
    requires Position(inbox.direct, AudienceOf(s, s.receipts[j])) == Some(at) && p.context.sequence.value > Base(inbox.direct[at])
    ensures var d, n := inbox.direct[at], p.context.sequence.value;
            (forall m :: Base(d) < m <= n ==> Retains(d, m)) <==> Retains(d, n)
  {
    hide Position, Obstructs, Well, Retains, AboveFloor;
    HandedScope(host, inbox, hints, p, s, j);
    var r, d := s.receipts[j], inbox.direct[at];
    assert d in inbox.direct;
    assert !Obstructs(d.records, Saturating(Base(d), 1), r.sequence);
    WellOrdered(inbox.direct, at);
    if Retains(d, r.sequence) { UnobstructedIsContiguous(d, r.sequence); }
  }

  lemma WellOrdered(direct: seq<DirectStream>, i: nat)
    requires Well(direct) && i < |direct|
    ensures Ordered(direct[i])
  {
    assert Streams.WellStream(direct[i]);
  }

  // ------------------------------------------------------- anchoring over runs

  /** If the event's direct object is taken in, it is new above its floor, or a
      copy of one already held. */
  ghost predicate ArrivesWell(host: Host, inbox: ObjectInbox, e: InboxEvent) {
    match e
    case Staging(c, recipients, current, body) =>
      recipients != [] && c.sequence.Some? && Authenticated(host, inbox, c, recipients, current, body).Ok? && PreparedKey(host, inbox, e).Some? ==>
        ArrivesAbove(inbox.direct, Audience(Authenticated(host, inbox, c, recipients, current, body).value.member, c.revision, c.topic, recipients), Copy(c, body))
    case Streaming(Retaining(a, r)) => ArrivesAbove(inbox.direct, a, r)
    case _ => true
  }

  ghost predicate AllKept(direct: seq<DirectStream>, next: seq<DirectStream>) {
    && Well(next) && AllAbove(next) && |direct| <= |next|
    && forall i :: 0 <= i < |direct| ==> Keeps(direct[i], next[i])
  }

  lemma AllKeptReflexive(direct: seq<DirectStream>)
    requires Well(direct) && AllAbove(direct)
    ensures AllKept(direct, direct)
  {
    hide Well, AboveFloor, Settles;
  }

  /** Announcing and skipping touch neither records nor floors. */
  lemma UpdateKept(direct: seq<DirectStream>, next: seq<DirectStream>, a: Audience, s: DirectStream)
    requires Well(direct) && AllAbove(direct) && Well(next) && next == Begun(direct, a)[Place(direct, a) := s]
    requires s.audience == a && s.floor == Begun(direct, a)[Place(direct, a)].floor && s.records == Begun(direct, a)[Place(direct, a)].records
    ensures AllKept(direct, next)
  {
    hide Position, Well;
    BegunAbove(direct, a);
    var begun, i := Begun(direct, a), Place(direct, a);
    SameRecordsKeep(begun[i], s);
    hide AboveFloor, Settles;
    forall k | 0 <= k < |begun| ensures Keeps(begun[k], next[k]) { if k != i { KeepsReflexive(begun[k]); } }
  }

  lemma SameRecordsKeep(s: DirectStream, t: DirectStream)
    requires AboveFloor(s) && t.audience == s.audience && t.floor == s.floor && t.records == s.records
    ensures Keeps(s, t)
  {
  }

  lemma AfterKept(size: seq<DirectStream> -> nat, direct: seq<DirectStream>, e: StreamEvent)
    requires Well(direct) && AllAbove(direct) && (e.Retaining? ==> ArrivesAbove(direct, e.audience, e.record))
    ensures AllKept(direct, After(size, direct, e))
  {
    hide Well, AboveFloor, Keeps, Position, Skipped, RetainDirect, AllAbove;
    AllKeptReflexive(direct);
    match e
    case Retaining(a, r) =>
      if RetainDirect(size, direct, a, r).Ok? { RetainWell(size, direct, a, r); RetainKeeps(size, direct, a, r); }
    case Announcing(a, through) =>
      if Announced(direct, a, through).Ok? && Announced(direct, a, through).value.Some? {
        AnnouncedWell(direct, a, through);
        var begun, i := Begun(direct, a), Place(direct, a);
        UpdateKept(direct, begun[i := begun[i].(knownHead := through)], a, begun[i].(knownHead := through));
      }
    case Skipping(a, gap) =>
      if SkipDirect(direct, a, gap).Ok? {
        SkipWell(direct, a, gap);
        var i := Position(direct, a).value;
        SkippedOnlyFloor(direct[i], gap);
        UpdateKept(direct, direct[i := Skipped(direct[i], gap).value.0], a, Skipped(direct[i], gap).value.0);
      }
  }

  lemma SkippedOnlyFloor(s: DirectStream, gap: Gap)
    requires Skipped(s, gap).Ok?
    ensures var t := Skipped(s, gap).value.0; t.audience == s.audience && t.floor == s.floor && t.records == s.records
  {
    hide Scanned;
  }

  /** Receipts stay anchored while their streams only keep. */
  lemma KeptAnchors(direct: seq<DirectStream>, next: seq<DirectStream>, s: Stream, r: Receipt)
    requires AllKept(direct, next) && AnchoredReceipt(direct, s, r)
    ensures AnchoredReceipt(next, s, r)
  {
    hide AboveFloor, Settles, Streams.WellStream, Position;
    if r.recipients != [] && r.sequence != 0 { KeepsSettled(direct, next, AudienceOf(s, r), r.sequence); }
  }

  lemma PutMembers(streams: seq<Stream>, s: Stream)
    ensures forall x :: x in Put(streams, s) ==> x == s || x in streams
  {
    hide Find;
  }

  /** Staging an object that arrives above its floor. */
  lemma AdmitAnchored(host: Host, inbox: ObjectInbox, e: InboxEvent)
    requires Sound(inbox) && Anchored(inbox) && ArrivesWell(host, inbox, e) && PreparedKey(host, inbox, e).Some?
    ensures Anchored(Next(host, inbox, e))
  {
    hide Find, Pushed, RetainDirect, Inbox.WellStream, ReceiptAad, Well, AllAbove, AllKept, ArrivesAbove, SettledIn, Keeps;
    var o := Authenticated(host, inbox, e.context, e.recipients, e.current, e.body).value;
    var next := Next(host, inbox, e);
    var a := Audience(o.member, e.context.revision, e.context.topic, e.recipients);
    if e.recipients != [] && e.context.sequence.Some? {
      RetainAllKept(host.size, inbox.direct, a, Copy(e.context, e.body));
    } else {
      AllKeptReflexive(inbox.direct);
    }
    AllKeptWell(inbox.direct, next.direct);
    var t := AdmittedStream(host, inbox, e);
    PutMembers(inbox.streams, t);
    forall s, r | s in next.streams && r in s.receipts ensures AnchoredReceipt(next.direct, s, r) {
      if s in inbox.streams {
        KeptAnchors(inbox.direct, next.direct, s, r);
      } else if r in View(inbox.streams, o.member, e.context.topic).receipts {
        KeptAnchors(inbox.direct, next.direct, View(inbox.streams, o.member, e.context.topic), r);
      }
    }
  }

  lemma RetainAllKept(size: seq<DirectStream> -> nat, direct: seq<DirectStream>, a: Audience, r: DirectRecord)
    requires Well(direct) && AllAbove(direct) && ArrivesAbove(direct, a, r) && RetainDirect(size, direct, a, r).Ok?
    ensures AllKept(direct, RetainDirect(size, direct, a, r).value) && SettledIn(RetainDirect(size, direct, a, r).value, a, r.sequence)
  {
    hide Well, AllAbove, ArrivesAbove, RetainDirect, Keeps, SettledIn;
    RetainWell(size, direct, a, r);
    RetainKeeps(size, direct, a, r);
  }

  lemma AllKeptWell(direct: seq<DirectStream>, next: seq<DirectStream>)
    requires AllKept(direct, next)
    ensures Well(next) && AllAbove(next)
  {
  }

  /** The stream an admitted object ends up in: the old receipts it kept, and
      the new one. */
  lemma AdmittedStream(host: Host, inbox: ObjectInbox, e: InboxEvent) returns (t: Stream)
    requires Sound(inbox) && PreparedKey(host, inbox, e).Some?
    ensures Authenticated(host, inbox, e.context, e.recipients, e.current, e.body).Ok?
    ensures var o := Authenticated(host, inbox, e.context, e.recipients, e.current, e.body).value;
            var s := View(inbox.streams, o.member, e.context.topic);
            && Next(host, inbox, e).streams == Put(inbox.streams, t) && t.author == s.author == o.member && t.topic == s.topic == e.context.topic
            && (forall x :: x in t.receipts ==> x in s.receipts || x == NewReceipt(host, o.counter, e.context, e.recipients, e.current, e.body))
            && (s.receipts != [] ==> s in inbox.streams)
  {
    hide Find, Pushed, RetainDirect, Inbox.WellStream, ReceiptAad;
    StageAuthenticates(host, inbox, e.context, e.recipients, e.current, e.body);
    var o := Authenticated(host, inbox, e.context, e.recipients, e.current, e.body).value;
    var s := View(inbox.streams, o.member, e.context.topic);
    ViewWell(inbox, o.member, e.context.topic);
    ScreenUnseen(inbox, s, o.counter, e.context, e.recipients, e.current, host.hash(e.body));
    var r := NewReceipt(host, o.counter, e.context, e.recipients, e.current, e.body);
    PushedKeeps(s, r);
    t := Pushed(s, r).value;
  }

  /** Resolving a receipt moves nothing. */
  lemma ResolveAnchored(inbox: ObjectInbox, author: Id32, topic: Topic, counter: u64, id: Id16, rejecting: bool)
    requires Anchored(inbox) && Resolved(inbox, author, topic, counter, id, rejecting).Ok?
    ensures Anchored(Resolved(inbox, author, topic, counter, id, rejecting).value)
  {
    hide Find, FindReceipt, Well, AllAbove, SettledIn;
    var next := Resolved(inbox, author, topic, counter, id, rejecting).value;
    var s := inbox.streams[Find(inbox.streams, author, topic).value];
    var i := FindReceipt(s.receipts, counter).value;
    var now := s.receipts[i].(pending := None, rejected := rejecting);
    var t := s.(receipts := s.receipts[i := now]);
    PutMembers(inbox.streams, t);
    assert AnchoredReceipt(inbox.direct, s, s.receipts[i]);
    forall u, r | u in next.streams && r in u.receipts ensures AnchoredReceipt(next.direct, u, r) {
      if u !in inbox.streams {
        assert u == t && (r == now || r in s.receipts);
        assert r in s.receipts ==> AnchoredReceipt(inbox.direct, s, r);
      }
    }
  }

  lemma StreamAnchored(host: Host, inbox: ObjectInbox, change: StreamEvent)
    requires Anchored(inbox) && (change.Retaining? ==> ArrivesAbove(inbox.direct, change.audience, change.record))
    ensures Anchored(inbox.(direct := After(host.size, inbox.direct, change)))
  {
    hide Well, AllAbove, After, AllKept, AnchoredReceipt, ArrivesAbove;
    AfterKept(host.size, inbox.direct, change);
    var next := After(host.size, inbox.direct, change);
    AllKeptWell(inbox.direct, next);
    forall s, r | s in inbox.streams && r in s.receipts ensures AnchoredReceipt(next, s, r) { KeptAnchors(inbox.direct, next, s, r); }
  }

  lemma StepAnchored(host: Host, inbox: ObjectInbox, e: InboxEvent)
    requires Sound(inbox) && Anchored(inbox) && ArrivesWell(host, inbox, e)
    ensures Anchored(Next(host, inbox, e))
  {
    hide Anchored, Stage, Resolved, After, Sound, ArrivesAbove;
    match e
    case Staging(c, recipients, current, body) =>
      var stage := Stage(host, inbox, c, recipients, current, body);
      if stage.Ok? && stage.value.Prepared? {
        StageAuthenticates(host, inbox, c, recipients, current, body);
        AdmitAnchored(host, inbox, e);
      }
    case Acknowledging(author, topic, counter, id) =>
      if Resolved(inbox, author, topic, counter, id, false).Ok? { ResolveAnchored(inbox, author, topic, counter, id, false); }
    case Rejecting(author, topic, counter, id) =>
      if Resolved(inbox, author, topic, counter, id, true).Ok? { ResolveAnchored(inbox, author, topic, counter, id, true); }
    case Streaming(change) => StreamAnchored(host, inbox, change);
  }

  lemma {:induction false} RunAnchored(host: Host, states: seq<ObjectInbox>, events: seq<InboxEvent>, n: nat)
    requires IsRun(host, states, events) && states[0].direct == [] && n <= |events|
    requires forall i :: 0 <= i < n ==> ArrivesWell(host, states[i], events[i])
    ensures Anchored(states[n])
  {
    hide Next, ArrivesWell, Sound, Anchored;
    if n == 0 {
      NothingAnchored(states[0]);
    } else {
      RunAnchored(host, states, events, n - 1);
      RunSound(host, states, events, n - 1);
      StepAnchored(host, states[n - 1], events[n - 1]);
    }
  }

  lemma NothingAnchored(inbox: ObjectInbox)
    requires inbox.streams == [] && inbox.direct == []
    ensures Anchored(inbox)
  {
  }

  // ------------------------------------------------- order, over every run

  ghost predicate HeardReceipt(direct: seq<DirectStream>, s: Stream, r: Receipt) {
    r.recipients != [] && r.sequence != 0 ==> r.sequence <= HeadOf(direct, AudienceOf(s, r))
  }

  /** Every sequenced direct object received was heard of by its stream. */
  ghost predicate Heard(inbox: ObjectInbox) {
    Well(inbox.direct) && forall s, r :: s in inbox.streams && r in s.receipts ==> HeardReceipt(inbox.direct, s, r)
  }

  lemma GrownHears(direct: seq<DirectStream>, next: seq<DirectStream>, s: Stream, r: Receipt)
    requires Well(direct) && Well(next) && Grown(direct, next) && HeardReceipt(direct, s, r)
    ensures HeardReceipt(next, s, r)
  {
    hide Well, Grown, HeadOf;
    GrownHeads(direct, next, AudienceOf(s, r));
  }

  /** Whatever retaining does, the object's own stream has heard of its number. */
  lemma AdmitGrows(host: Host, inbox: ObjectInbox, e: InboxEvent)
    requires Well(inbox.direct) && PreparedKey(host, inbox, e).Some? && Authenticated(host, inbox, e.context, e.recipients, e.current, e.body).Ok?
    ensures var next := Next(host, inbox, e);
            var o := Authenticated(host, inbox, e.context, e.recipients, e.current, e.body).value;
            && Well(next.direct) && Grown(inbox.direct, next.direct)
            && (e.recipients != [] && e.context.sequence.Some? ==>
                  e.context.sequence.value <= HeadOf(next.direct, Audience(o.member, e.context.revision, e.context.topic, e.recipients)))
  {
    hide Find, Pushed, RetainDirect, ReceiptAad, Well, Grown, HeadOf;
    var o := Authenticated(host, inbox, e.context, e.recipients, e.current, e.body).value;
    if e.recipients != [] && e.context.sequence.Some? {
      RetainWell(host.size, inbox.direct, Audience(o.member, e.context.revision, e.context.topic, e.recipients), Copy(e.context, e.body));
    } else {
      GrownReflexive(inbox.direct);
    }
  }

  lemma AdmitHeard(host: Host, inbox: ObjectInbox, e: InboxEvent)
    requires Sound(inbox) && Heard(inbox) && PreparedKey(host, inbox, e).Some?
    ensures Heard(Next(host, inbox, e))
  {
    hide Find, Next, Authenticated, PreparedKey, Sound, Well, Grown, HeadOf;
    var t := AdmittedStream(host, inbox, e);
    AdmitGrows(host, inbox, e);
    var o := Authenticated(host, inbox, e.context, e.recipients, e.current, e.body).value;
    var next, was := Next(host, inbox, e), View(inbox.streams, o.member, e.context.topic);
    PutMembers(inbox.streams, t);
    forall s, r | s in next.streams && r in s.receipts ensures HeardReceipt(next.direct, s, r) {
      if s in inbox.streams {
        GrownHears(inbox.direct, next.direct, s, r);
      } else if r in was.receipts {
        GrownHears(inbox.direct, next.direct, was, r);
      }
    }
  }

  lemma ResolveHeard(inbox: ObjectInbox, author: Id32, topic: Topic, counter: u64, id: Id16, rejecting: bool)
    requires Heard(inbox) && Resolved(inbox, author, topic, counter, id, rejecting).Ok?
    ensures Heard(Resolved(inbox, author, topic, counter, id, rejecting).value)
  {
    hide Find, FindReceipt, Well, HeadOf;
    var next := Resolved(inbox, author, topic, counter, id, rejecting).value;
    var s := inbox.streams[Find(inbox.streams, author, topic).value];
    var i := FindReceipt(s.receipts, counter).value;
    var now := s.receipts[i].(pending := None, rejected := rejecting);
    var t := s.(receipts := s.receipts[i := now]);
    PutMembers(inbox.streams, t);
    assert HeardReceipt(inbox.direct, s, s.receipts[i]);
    forall u, r | u in next.streams && r in u.receipts ensures HeardReceipt(next.direct, u, r) {
      if u !in inbox.streams {
        assert u == t && (r == now || r in s.receipts);
        assert r in s.receipts ==> HeardReceipt(inbox.direct, s, r);
      }
    }
  }

  lemma StepHeard(host: Host, inbox: ObjectInbox, e: InboxEvent)
    requires Sound(inbox) && Heard(inbox)
    ensures Heard(Next(host, inbox, e))
  {
    hide Heard, Stage, Resolved, After, Sound;
    match e
    case Staging(c, recipients, current, body) =>
      var stage := Stage(host, inbox, c, recipients, current, body);
      if stage.Ok? && stage.value.Prepared? {
        StageAuthenticates(host, inbox, c, recipients, current, body);
        AdmitHeard(host, inbox, e);
      }
    case Acknowledging(author, topic, counter, id) =>
      if Resolved(inbox, author, topic, counter, id, false).Ok? { ResolveHeard(inbox, author, topic, counter, id, false); }
    case Rejecting(author, topic, counter, id) =>
      if Resolved(inbox, author, topic, counter, id, true).Ok? { ResolveHeard(inbox, author, topic, counter, id, true); }
    case Streaming(change) => StreamHeard(host, inbox, change);
  }

  lemma StreamHeard(host: Host, inbox: ObjectInbox, change: StreamEvent)
    requires Heard(inbox)
    ensures Heard(inbox.(direct := After(host.size, inbox.direct, change)))
  {
    hide Well, Grown, After, HeardReceipt;
    AfterWell(host.size, inbox.direct, change);
    var next := After(host.size, inbox.direct, change);
    forall s, r | s in inbox.streams && r in s.receipts ensures HeardReceipt(next, s, r) { GrownHears(inbox.direct, next, s, r); }
  }

  lemma {:induction false} RunHeard(host: Host, states: seq<ObjectInbox>, events: seq<InboxEvent>, n: nat)
    requires IsRun(host, states, events) && states[0].direct == [] && n <= |events|
    ensures Heard(states[n])
  {
    hide Next, Sound, HeardReceipt;
    if n == 0 {
      NothingWell();
    } else {
      RunHeard(host, states, events, n - 1);
      RunSound(host, states, events, n - 1);
      StepHeard(host, states[n - 1], events[n - 1]);
    }
  }

  /** What the stream of a handed-over direct object says of its order. */
  ghost predicate Ordinary(direct: seq<DirectStream>, p: PendingObject) {
    p.recipients != [] && p.context.sequence.Some? ==>
      var at := Position(direct, Audience(p.message.member, p.context.revision, p.context.topic, p.recipients));
      && at.Some?
      && (p.context.sequence.value > Base(direct[at.value]) ==>
            ((forall m :: Base(direct[at.value]) < m <= p.context.sequence.value ==> Retains(direct[at.value], m))
             <==> Retains(direct[at.value], p.context.sequence.value)))
  }

  /** Order of delivery, exactly, over every run: a sequenced direct object handed
      over above both floors has every number from the floors up to its own
      retained if and only if its own copy is still retained. */
  lemma OrderExactly(host: Host, states: seq<ObjectInbox>, events: seq<InboxEvent>, n: nat, hints: seq<Deferred>)
    requires IsRun(host, states, events) && states[0].direct == [] && n <= |events|
    ensures var r := PendingExcluding(host, states[n], hints);
            r.Ok? && r.value.Some? ==> Ordinary(states[n].direct, r.value.value)
  {
    hide Next, PendingExcluding, PassedOver, Retains, Base, Well;
    RunHeard(host, states, events, n);
    var s, j := HandedOverMeans(host, states[n], hints);
    var r := PendingExcluding(host, states[n], hints);
    if r.Ok? && r.value.Some? {
      var p := r.value.value;
      HandedScope(host, states[n], hints, p, s, j);
      if p.recipients != [] && p.context.sequence.Some? {
        assert HeardReceipt(states[n].direct, s, s.receipts[j]);
        var at := Position(states[n].direct, AudienceOf(s, s.receipts[j]));
        hide Position;
        if p.context.sequence.value > Base(states[n].direct[at.value]) { HandedInOrder(host, states[n], hints, p, s, j, at.value); }
      }
    }
  }

  /** Ordered direct delivery: when every sequenced direct object taken in did its
      stream's floor no harm, the copy of one handed over above both floors is
      retained, and so is every number from the floors up to its own. */
  lemma OrderedDelivery(host: Host, states: seq<ObjectInbox>, events: seq<InboxEvent>, n: nat, hints: seq<Deferred>)
    requires IsRun(host, states, events) && states[0].direct == [] && n <= |events|
    requires forall i :: 0 <= i < n ==> ArrivesWell(host, states[i], events[i])
    ensures var r := PendingExcluding(host, states[n], hints);
            r.Ok? && r.value.Some? && r.value.value.recipients != [] && r.value.value.context.sequence.Some? ==>
              var p := r.value.value;
              var at := Position(states[n].direct, Audience(p.message.member, p.context.revision, p.context.topic, p.recipients));
              && at.Some?
              && (p.context.sequence.value > Base(states[n].direct[at.value]) ==>
                    forall m :: Base(states[n].direct[at.value]) < m <= p.context.sequence.value ==> Retains(states[n].direct[at.value], m))
  {
    hide ArrivesWell, Next, PendingExcluding, Position, PassedOver, Retains, Head, Well, AllAbove;
    RunAnchored(host, states, events, n);
    OrderExactly(host, states, events, n, hints);
    var s, j := HandedOverMeans(host, states[n], hints);
    var r := PendingExcluding(host, states[n], hints);
    if r.Ok? && r.value.Some? {
      HandedScope(host, states[n], hints, r.value.value, s, j);
      assert AnchoredReceipt(states[n].direct, s, s.receipts[j]);
    }
  }
}
