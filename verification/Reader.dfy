/** A reader of signed current views. Models `accept_current_view` of
    crates/arachne-delivery/src/inbox.rs: which views are refused as older or
    conflicting, how their values enter the inbox, and what the reader remembers
    about each scope over any arrival order. */
module Reader {
  import opened Bytes
  import opened Publication
  import opened Current
  import opened Manifest
  import Inbox

  datatype ProgressKey = ProgressKey(authority: Id32, scope: Scope)

  datatype Progress = Progress(cut: u64, digest: Id32)

  datatype ViewReader = ViewReader(inbox: Inbox.ObjectInbox, progress: map<ProgressKey, Progress>)

  /** The security owner: object decryption for the inbox, signatures, the
      endpoint of each member, and whether a candidate can be saved. */
  datatype Owner = Owner(host: Inbox.Host, signer: Signer, endpoint: Id32 -> Option<Id32>, saves: ViewReader -> bool)

  datatype Acceptance =
    | Accepted(next: ViewReader, pending: nat, stale: nat)
    | RolledBack
    | Conflicting
    | Refused(error: Error)

  function KeyOf(q: ViewQuery): ProgressKey { ProgressKey(q.authority, QueryScope(q)) }

  predicate IsCurrent(owner: Owner, q: ViewQuery) { (owner.host.workspace, owner.host.epoch) == (q.workspace, q.epoch) }

  function Metadata(q: ViewQuery, v: CurrentValue): CurrentMetadata {
    CurrentMetadata(q.selector, v.key, v.expiresAt, v.tombstone)
  }

  datatype Staged = Staged(inbox: Inbox.ObjectInbox, pending: nat, stale: nat)

  /** One value of a view: expired values are counted, others must come from the
      queried authority and are staged. */
  function StageValue(host: Inbox.Host, s: Staged, q: ViewQuery, endpoint: Id32, v: CurrentValue, now: u64): Result<Staged> {
    if v.expiresAt <= now then Ok(s.(stale := s.stale + 1)) else
    var (c, body) :- Unpack(q.workspace, q.revision, q.topic, v.packet);
    var o := host.unprotect(LiveBytes(Metadata(q, v), c), body);
    if o.None? then Err(Undecryptable) else
    if o.value.member != q.authority || o.value.endpoint != endpoint then Err(AuthorMismatch) else
    match Inbox.Stage(host, s.inbox, c, [], Some(Metadata(q, v)), body)
    case Err(e) => Err(e)
    case Ok(OutsideWindow) => Err(SequenceOutsideRange)
    case Ok(Duplicate) => Ok(s)
    case Ok(Prepared(next)) => Ok(Staged(next, s.pending + 1, s.stale))
  }

  function StageValues(host: Inbox.Host, s: Staged, q: ViewQuery, endpoint: Id32, values: seq<CurrentValue>, now: u64): Result<Staged>
    decreases |values|
  {
    if values == [] then Ok(s) else
    var next :- StageValue(host, s, q, endpoint, values[0], now);
    StageValues(host, next, q, endpoint, values[1..], now)
  }

  function Recorded(r: ViewReader, q: ViewQuery, s: Staged, p: Progress): ViewReader {
    ViewReader(s.inbox, r.progress[KeyOf(q) := p])
  }

  /** `accept_current_view`. */
  function Accept(owner: Owner, r: ViewReader, q: ViewQuery, reply: seq<byte>, now: u64): Acceptance {
    if (r.inbox.workspace, r.inbox.epoch) != (owner.host.workspace, owner.host.epoch) then Refused(NotCurrent) else
    var verified := VerifyReply(owner.signer, IsCurrent(owner, q), q, reply);
    if verified.Err? then Refused(verified.error) else
    if verified.value.None? then Refused(NotCurrent) else
    var view := verified.value.value;
    var p := Progress(view.cut, owner.signer.hash(reply));
    if KeyOf(q) in r.progress && p.cut < r.progress[KeyOf(q)].cut then RolledBack else
    if KeyOf(q) in r.progress && p.cut == r.progress[KeyOf(q)].cut then
      if p.digest == r.progress[KeyOf(q)].digest then Accepted(r, 0, 0) else Conflicting
    else if KeyOf(q) !in r.progress && |r.progress| == MAX_CURRENT_SELECTIONS then Refused(CapacityExhausted) else
    if owner.endpoint(q.authority).None? then Refused(MemberRequired) else
    match StageValues(owner.host, Staged(r.inbox, 0, 0), q, owner.endpoint(q.authority).value, view.values, now)
    case Err(e) => Refused(e)
    case Ok(s) =>
      if owner.saves(Recorded(r, q, s, p)) then Accepted(Recorded(r, q, s, p), s.pending, s.stale) else Refused(ExceedsBound)
  }

  /** Only a reply that verifies for the reader's own epoch gets past the checks. */
  lemma NeedsCurrent(owner: Owner, q: ViewQuery, reply: seq<byte>)
    ensures var v := VerifyReply(owner.signer, IsCurrent(owner, q), q, reply); v.Ok? && v.value.Some? ==> IsCurrent(owner, q)
  {
    hide ReadView, Authentic, Parse, Entries;
  }

  // ------------------------------------------------------------ the values

  /** The object a value carries is in the inbox: delivered or waiting. */
  ghost predicate Taken(host: Inbox.Host, inbox: Inbox.ObjectInbox, q: ViewQuery, v: CurrentValue) {
    var unpacked := Unpack(q.workspace, q.revision, q.topic, v.packet);
    && unpacked.Ok?
    && (var (c, body) := unpacked.value;
        var o := host.unprotect(LiveBytes(Metadata(q, v), c), body);
        o.Some? && o.value.member == q.authority && Inbox.Seen(inbox, Inbox.Key(q.authority, c.topic, o.value.counter)))
  }

  /** Nothing the inbox knew is forgotten. */
  ghost predicate Remembers(inbox: Inbox.ObjectInbox, next: Inbox.ObjectInbox) {
    forall k :: Inbox.Seen(inbox, k) ==> Inbox.Seen(next, k) && (!Inbox.Awaiting(inbox, k) ==> !Inbox.Awaiting(next, k))
  }

  lemma StageSees(host: Inbox.Host, inbox: Inbox.ObjectInbox, c: Context, current: CurrentMetadata, body: seq<byte>)
    requires Inbox.Sound(inbox)
    requires var s := Inbox.Stage(host, inbox, c, [], Some(current), body); s.Ok? && !s.value.OutsideWindow?
    ensures var e := Inbox.Staging(c, [], Some(current), body);
            var next := Inbox.Next(host, inbox, e);
            var o := host.unprotect(LiveBytes(current, c), body);
            && Inbox.Sound(next) && Remembers(inbox, next)
            && o.Some? && Inbox.Seen(next, Inbox.Key(o.value.member, c.topic, o.value.counter))
  {
    hide Inbox.Sound, Inbox.Screen, Inbox.Admit, Inbox.Find, Inbox.Seen, Inbox.Awaiting;
    var e := Inbox.Staging(c, [], Some(current), body);
    var next := Inbox.Next(host, inbox, e);
    forall k ensures Inbox.Seen(inbox, k) ==> Inbox.Seen(next, k) && (!Inbox.Awaiting(inbox, k) ==> !Inbox.Awaiting(next, k)) {
      Inbox.StepKeeps(host, inbox, e, k);
    }
    var o := host.unprotect(LiveBytes(current, c), body).value;
    var k := Inbox.Key(o.member, c.topic, o.counter);
    Inbox.StepKeeps(host, inbox, e, k);
    if Inbox.Stage(host, inbox, c, [], Some(current), body).value.Duplicate? {
      ScreenDuplicate(inbox, Inbox.View(inbox.streams, o.member, c.topic), o.counter, c, Some(current), host.hash(body));
      SeenIsSeen(inbox, k);
    }
  }

  lemma SeenIsSeen(inbox: Inbox.ObjectInbox, k: Inbox.Key)
    ensures Inbox.Seen(inbox, k) <==> Inbox.SeenIn(Inbox.View(inbox.streams, k.author, k.topic), k.counter)
  {
  }

  lemma ScreenDuplicate(inbox: Inbox.ObjectInbox, s: Inbox.Stream, counter: nonzero, c: Context, current: Option<CurrentMetadata>, digest: Inbox.Digest)
    requires Inbox.Screen(inbox, s, counter, c, [], current, digest) == Some(Ok(Inbox.Duplicate))
    ensures Inbox.SeenIn(s, counter)
  {
    var known := Inbox.FindReceipt(s.receipts, counter);
    assert s.receipts[known.value] in s.receipts;
  }

  lemma StageValueTakes(host: Inbox.Host, s: Staged, q: ViewQuery, endpoint: Id32, v: CurrentValue, now: u64)
    requires Inbox.Sound(s.inbox) && StageValue(host, s, q, endpoint, v, now).Ok?
    ensures var next := StageValue(host, s, q, endpoint, v, now).value;
            Inbox.Sound(next.inbox) && Remembers(s.inbox, next.inbox) && (v.expiresAt > now ==> Taken(host, next.inbox, q, v))
  {
    hide Inbox.Sound, Inbox.Stage, Inbox.Seen, Inbox.Awaiting, Unpack, LiveBytes;
    if v.expiresAt > now {
      var (c, body) := Unpack(q.workspace, q.revision, q.topic, v.packet).value;
      StageSees(host, s.inbox, c, Metadata(q, v), body);
    }
  }

  lemma TakenStays(host: Inbox.Host, inbox: Inbox.ObjectInbox, next: Inbox.ObjectInbox, q: ViewQuery, v: CurrentValue)
    requires Remembers(inbox, next) && Taken(host, inbox, q, v)
    ensures Taken(host, next, q, v)
  {
    hide Inbox.Seen, Inbox.Awaiting, Unpack, LiveBytes;
    var (c, body) := Unpack(q.workspace, q.revision, q.topic, v.packet).value;
    var o := host.unprotect(LiveBytes(Metadata(q, v), c), body).value;
    assert Inbox.Seen(inbox, Inbox.Key(q.authority, c.topic, o.counter));
  }

  /** Staging a whole view leaves every unexpired value taken. */
  lemma {:induction false} StageValuesTake(host: Inbox.Host, s: Staged, q: ViewQuery, endpoint: Id32, values: seq<CurrentValue>, now: u64)
    requires Inbox.Sound(s.inbox) && StageValues(host, s, q, endpoint, values, now).Ok?
    ensures var next := StageValues(host, s, q, endpoint, values, now).value;
            && Inbox.Sound(next.inbox) && Remembers(s.inbox, next.inbox)
            && forall i :: 0 <= i < |values| && values[i].expiresAt > now ==> Taken(host, next.inbox, q, values[i])
    decreases |values|
  {
    hide Inbox.Sound, Inbox.Seen, Inbox.Awaiting, StageValue, Taken;
    if values != [] {
      var mid := StageValue(host, s, q, endpoint, values[0], now).value;
      StageValueTakes(host, s, q, endpoint, values[0], now);
      StageValuesTake(host, mid, q, endpoint, values[1..], now);
      var next := StageValues(host, s, q, endpoint, values, now).value;
      forall i | 0 <= i < |values| && values[i].expiresAt > now ensures Taken(host, next.inbox, q, values[i]) {
        if i == 0 { TakenStays(host, mid.inbox, next.inbox, q, values[0]); } else { assert values[i] == values[1..][i - 1]; }
      }
    }
  }

  /** An accepted view that moves the reader forward is complete: every value not
      expired by then is in the inbox, and nothing the inbox knew is lost. */
  lemma AcceptedIsComplete(owner: Owner, r: ViewReader, q: ViewQuery, reply: seq<byte>, now: u64)
    requires Inbox.Sound(r.inbox) && Accept(owner, r, q, reply, now).Accepted?
    ensures var next := Accept(owner, r, q, reply, now).next;
            var view := VerifyReply(owner.signer, true, q, reply).value.value;
            && Inbox.Sound(next.inbox) && Remembers(r.inbox, next.inbox)
            && (next != r ==> forall i :: 0 <= i < |view.values| && view.values[i].expiresAt > now ==> Taken(owner.host, next.inbox, q, view.values[i]))
  {
    hide Inbox.Sound, Inbox.Seen, Inbox.Awaiting, StageValues, VerifyReply, Taken;
    NeedsCurrent(owner, q, reply);
    var next := Accept(owner, r, q, reply, now).next;
    if next != r {
      var view := VerifyReply(owner.signer, true, q, reply).value.value;
      StageValuesTake(owner.host, Staged(r.inbox, 0, 0), q, owner.endpoint(q.authority).value, view.values, now);
    }
  }

  /** The number of expired values. */
  function Expired(values: seq<CurrentValue>, now: u64): nat {
    if values == [] then 0 else (if values[0].expiresAt <= now then 1 else 0) + Expired(values[1..], now)
  }

  /** The value carries, for this endpoint of the queried authority, the object
      with this replay identity. */
  ghost predicate Brings(host: Inbox.Host, q: ViewQuery, endpoint: Id32, v: CurrentValue, k: Inbox.Key) {
    exists c, body :: Unpack(q.workspace, q.revision, q.topic, v.packet) == Ok((c, body)) && BringsAs(host, q, endpoint, v, k, c, body)
  }

  predicate BringsAs(host: Inbox.Host, q: ViewQuery, endpoint: Id32, v: CurrentValue, k: Inbox.Key, c: Context, body: seq<byte>) {
    var o := host.unprotect(LiveBytes(Metadata(q, v), c), body);
    o.Some? && o.value.member == q.authority && o.value.endpoint == endpoint && k == Inbox.Key(q.authority, c.topic, o.value.counter)
  }

  /** The inbox waits for exactly these objects more. */
  ghost predicate Gains(inbox: Inbox.ObjectInbox, next: Inbox.ObjectInbox, more: set<Inbox.Key>) {
    && (forall k :: k in more ==> !Inbox.Awaiting(inbox, k))
    && (forall k :: Inbox.Awaiting(next, k) <==> Inbox.Awaiting(inbox, k) || k in more)
  }

  lemma StageGains(host: Inbox.Host, inbox: Inbox.ObjectInbox, c: Context, current: CurrentMetadata, body: seq<byte>) returns (k: Inbox.Key)
    requires Inbox.Sound(inbox)
    requires var s := Inbox.Stage(host, inbox, c, [], Some(current), body); s.Ok? && s.value.Prepared?
    ensures var o := host.unprotect(LiveBytes(current, c), body); o.Some? && k == Inbox.Key(o.value.member, c.topic, o.value.counter)
    ensures Gains(inbox, Inbox.Stage(host, inbox, c, [], Some(current), body).value.inbox, {k})
  {
    hide Inbox.Sound, Inbox.Screen, Inbox.Admit, Inbox.Find, Inbox.Seen, Inbox.Awaiting;
    var e := Inbox.Staging(c, [], Some(current), body);
    var o := host.unprotect(LiveBytes(current, c), body).value;
    k := Inbox.Key(o.member, c.topic, o.counter);
    var next := Inbox.Stage(host, inbox, c, [], Some(current), body).value.inbox;
    assert Inbox.PreparedKey(host, inbox, e) == Some(k) && Inbox.Next(host, inbox, e) == next;
    hide Inbox.Stage, Inbox.PreparedKey, Inbox.Next;
    Inbox.PreparedAwaits(host, inbox, e, k);
    forall x ensures Inbox.Awaiting(next, x) <==> Inbox.Awaiting(inbox, x) || x == k { Inbox.PreparedAwaits(host, inbox, e, x); }
    var more := {k};
    assert forall x :: x in more <==> x == k;
  }

  /** One value: an expired one is only counted, and stays out; another one makes
      at most its own object wait, and is counted exactly when it does. */
  lemma StageValueExactly(host: Inbox.Host, s: Staged, q: ViewQuery, endpoint: Id32, v: CurrentValue, now: u64) returns (more: set<Inbox.Key>)
    requires Inbox.Sound(s.inbox) && StageValue(host, s, q, endpoint, v, now).Ok?
    ensures var next := StageValue(host, s, q, endpoint, v, now).value;
            && Gains(s.inbox, next.inbox, more) && next.pending == s.pending + |more|
            && (v.expiresAt <= now ==> next.inbox == s.inbox)
            && next.stale == s.stale + (if v.expiresAt <= now then 1 else 0)
            && forall k :: k in more ==> v.expiresAt > now && Brings(host, q, endpoint, v, k)
  {
    hide Inbox.Sound, Inbox.Stage, Inbox.Awaiting, Unpack, LiveBytes;
    more := {};
    if v.expiresAt > now {
      var (c, body) := Unpack(q.workspace, q.revision, q.topic, v.packet).value;
      if Inbox.Stage(host, s.inbox, c, [], Some(Metadata(q, v)), body).value.Prepared? {
        var k := StageGains(host, s.inbox, c, Metadata(q, v), body);
        more := {k};
        assert BringsAs(host, q, endpoint, v, k, c, body);
      }
    }
  }

  ghost predicate BroughtBy(host: Inbox.Host, q: ViewQuery, endpoint: Id32, values: seq<CurrentValue>, now: u64, k: Inbox.Key) {
    exists i :: 0 <= i < |values| && values[i].expiresAt > now && Brings(host, q, endpoint, values[i], k)
  }

  /** A whole view, exactly: the expired values are counted, the objects that now
      wait and did not before are counted, and each of those was brought by an
      unexpired value from the queried authority's own endpoint. */
  lemma {:induction false} StageValuesExactly(host: Inbox.Host, s: Staged, q: ViewQuery, endpoint: Id32, values: seq<CurrentValue>, now: u64) returns (more: set<Inbox.Key>)
    requires Inbox.Sound(s.inbox) && StageValues(host, s, q, endpoint, values, now).Ok?
    ensures var next := StageValues(host, s, q, endpoint, values, now).value;
            && Gains(s.inbox, next.inbox, more) && next.pending == s.pending + |more| && next.stale == s.stale + Expired(values, now)
            && forall k :: k in more ==> BroughtBy(host, q, endpoint, values, now, k)
    decreases |values|
  {
    hide Inbox.Sound, Inbox.Awaiting, StageValue, Brings;
    if values == [] { more := {}; } else {
      var mid := StageValue(host, s, q, endpoint, values[0], now).value;
      var first := StageValueExactly(host, s, q, endpoint, values[0], now);
      StageValueTakes(host, s, q, endpoint, values[0], now);
      var rest := StageValuesExactly(host, mid, q, endpoint, values[1..], now);
      more := first + rest;
      var next := StageValues(host, s, q, endpoint, values, now).value;
      GainsMore(s.inbox, mid.inbox, next.inbox, first, rest);
      forall k | k in more ensures BroughtBy(host, q, endpoint, values, now, k) { BroughtLater(host, q, endpoint, values, now, k); }
    }
  }

  lemma BroughtLater(host: Inbox.Host, q: ViewQuery, endpoint: Id32, values: seq<CurrentValue>, now: u64, k: Inbox.Key)
    requires values != []
    requires (values[0].expiresAt > now && Brings(host, q, endpoint, values[0], k)) || BroughtBy(host, q, endpoint, values[1..], now, k)
    ensures BroughtBy(host, q, endpoint, values, now, k)
  {
    hide Brings;
    if BroughtBy(host, q, endpoint, values[1..], now, k) {
      var i :| 0 <= i < |values[1..]| && values[1..][i].expiresAt > now && Brings(host, q, endpoint, values[1..][i], k);
      assert values[i + 1] == values[1..][i];
    }
  }

  lemma GainsMore(a: Inbox.ObjectInbox, b: Inbox.ObjectInbox, c: Inbox.ObjectInbox, first: set<Inbox.Key>, rest: set<Inbox.Key>)
    requires Gains(a, b, first) && Gains(b, c, rest)
    ensures Gains(a, c, first + rest) && |first + rest| == |first| + |rest|
  {
    hide Inbox.Awaiting;
    assert first !! rest;
  }

  /** What accepting a view reports is exactly what it did: how many values had
      expired, and how many objects wait now that did not, each brought by an
      unexpired value of the verified view. */
  lemma AcceptedBrings(owner: Owner, r: ViewReader, q: ViewQuery, reply: seq<byte>, now: u64) returns (more: set<Inbox.Key>)
    requires Inbox.Sound(r.inbox) && Accept(owner, r, q, reply, now).Accepted?
    ensures var a := Accept(owner, r, q, reply, now);
            var view := VerifyReply(owner.signer, true, q, reply).value.value;
            && Gains(r.inbox, a.next.inbox, more) && a.pending == |more|
            && a.stale == (if a.next == r then 0 else Expired(view.values, now))
            && forall k :: k in more ==> owner.endpoint(q.authority).Some? && BroughtBy(owner.host, q, owner.endpoint(q.authority).value, view.values, now, k)
  {
    hide Inbox.Sound, Inbox.Awaiting, StageValues, VerifyReply, BroughtBy, Expired;
    NeedsCurrent(owner, q, reply);
    if Accept(owner, r, q, reply, now).next == r { more := {}; } else {
      var view := VerifyReply(owner.signer, true, q, reply).value.value;
      more := StageValuesExactly(owner.host, Staged(r.inbox, 0, 0), q, owner.endpoint(q.authority).value, view.values, now);
    }
  }

  /** A value is taken exactly when it has expired, or when it unpacks for the query,
      opens for it as made by the queried authority at its endpoint, and the inbox
      prepares it or has it already. */
  lemma StageValueTaken(host: Inbox.Host, s: Staged, q: ViewQuery, endpoint: Id32, v: CurrentValue, now: u64)
    ensures StageValue(host, s, q, endpoint, v, now).Ok? <==>
              || v.expiresAt <= now
              || exists c, body :: Unpack(q.workspace, q.revision, q.topic, v.packet) == Ok((c, body))
                   && MadeBy(host, q, endpoint, v, c, body) && Inbox.Received(host, s.inbox, c, [], Some(CurrentMetadata(q.selector, v.key, v.expiresAt, v.tombstone)), body)
  {
    hide Inbox.Stage, Unpack, LiveBytes;
    var unpacked := Unpack(q.workspace, q.revision, q.topic, v.packet);
    if unpacked.Ok? {
      var (c, body) := unpacked.value;
      assert StageValue(host, s, q, endpoint, v, now).Ok? <==>
          v.expiresAt <= now || (MadeBy(host, q, endpoint, v, c, body) && Inbox.Received(host, s.inbox, c, [], Some(Metadata(q, v)), body));
    }
  }

  predicate MadeBy(host: Inbox.Host, q: ViewQuery, endpoint: Id32, v: CurrentValue, c: Context, body: seq<byte>) {
    var o := host.unprotect(LiveBytes(CurrentMetadata(q.selector, v.key, v.expiresAt, v.tombstone), c), body);
    o.Some? && o.value.member == q.authority && o.value.endpoint == endpoint
  }

  /** A verified view is accepted exactly when its bytes are the ones known for its
      cut, or when its cut is new and later, there is room for its scope, the
      authority's endpoint is known, every value can be taken in its turn, and the
      outcome can be saved. */
  lemma AcceptExactly(owner: Owner, r: ViewReader, q: ViewQuery, reply: seq<byte>, now: u64)
    requires (r.inbox.workspace, r.inbox.epoch) == (owner.host.workspace, owner.host.epoch)
    requires var v := VerifyReply(owner.signer, IsCurrent(owner, q), q, reply); v.Ok? && v.value.Some?
    ensures var view := VerifyReply(owner.signer, IsCurrent(owner, q), q, reply).value.value;
            var known := ProgressKey(q.authority, Scope(q.revision, q.topic, q.selector));
            var mark := Progress(view.cut, owner.signer.hash(reply));
            Accept(owner, r, q, reply, now).Accepted? <==>
              || (known in r.progress && r.progress[known] == mark)
              || (&& (if known in r.progress then r.progress[known].cut < view.cut else |r.progress| != MAX_CURRENT_SELECTIONS)
                  && owner.endpoint(q.authority).Some?
                  && var staged := StageValues(owner.host, Staged(r.inbox, 0, 0), q, owner.endpoint(q.authority).value, view.values, now);
                     staged.Ok? && owner.saves(ViewReader(staged.value.inbox, r.progress[known := mark])))
  {
    hide StageValues, VerifyReply;
  }

  /** A verified view is rolled back exactly when the reader knows a later cut of
      its scope, and conflicting exactly when it knows the same cut with other
      bytes. */
  lemma OutcomeExactly(owner: Owner, r: ViewReader, q: ViewQuery, reply: seq<byte>, now: u64)
    requires (r.inbox.workspace, r.inbox.epoch) == (owner.host.workspace, owner.host.epoch)
    requires var v := VerifyReply(owner.signer, IsCurrent(owner, q), q, reply); v.Ok? && v.value.Some?
    ensures var cut := VerifyReply(owner.signer, IsCurrent(owner, q), q, reply).value.value.cut;
            var known := ProgressKey(q.authority, Scope(q.revision, q.topic, q.selector));
            && (Accept(owner, r, q, reply, now).RolledBack? <==> known in r.progress && cut < r.progress[known].cut)
            && (Accept(owner, r, q, reply, now).Conflicting? <==>
                  known in r.progress && cut == r.progress[known].cut && owner.signer.hash(reply) != r.progress[known].digest)
  {
    hide StageValues, VerifyReply;
  }

  // --------------------------------------------------------------- the cuts

  /** Whatever bytes arrive, recorded cuts only rise, and one reply can move only
      the scope it was asked for. */
  lemma CutsNeverFall(owner: Owner, r: ViewReader, q: ViewQuery, reply: seq<byte>, now: u64)
    requires Accept(owner, r, q, reply, now).Accepted?
    ensures var next := Accept(owner, r, q, reply, now).next;
            && (forall k :: k in r.progress ==> k in next.progress && r.progress[k].cut <= next.progress[k].cut)
            && (forall k :: k in next.progress && k != KeyOf(q) ==> k in r.progress && next.progress[k] == r.progress[k])
            && KeyOf(q) in next.progress && next.progress[KeyOf(q)].cut == VerifyReply(owner.signer, true, q, reply).value.value.cut
  {
    hide StageValues, VerifyReply;
    NeedsCurrent(owner, q, reply);
  }

  datatype Arrival = Arrival(query: ViewQuery, reply: seq<byte>, now: u64)

  function After(owner: Owner, r: ViewReader, a: Arrival): ViewReader {
    var outcome := Accept(owner, r, a.query, a.reply, a.now);
    if outcome.Accepted? then outcome.next else r
  }

  function AfterAll(owner: Owner, r: ViewReader, arrivals: seq<Arrival>): ViewReader {
    if arrivals == [] then r else After(owner, AfterAll(owner, r, arrivals[..|arrivals| - 1]), arrivals[|arrivals| - 1])
  }

  /** The index after the first n insertions of a run. */
  ghost function IndexAt(index: Index, ops: seq<Insertion>, n: nat): Index
    requires n <= |ops|
  {
    InsertedAll(index, ops[..n])
  }

  /** A reply the authority served at some moment of the run. */
  ghost predicate ServedIn(owner: Owner, index: Index, ops: seq<Insertion>, a: Arrival) {
    exists n :: 0 <= n <= |ops| && ServeView(owner.signer, IndexAt(index, ops, n), a.query) == Ok(a.reply)
  }

  function QueryOf(index: Index, scope: Scope): ViewQuery {
    ViewQuery(index.workspace, index.authority, index.epoch, scope.revision, scope.topic, scope.selector)
  }

  /** What a reader records on accepting the view served after n insertions. */
  ghost predicate RecordedAt(owner: Owner, index: Index, ops: seq<Insertion>, scope: Scope, p: Progress, n: nat) {
    && n <= |ops| && p.cut == CutOf(IndexAt(index, ops, n), scope)
    && (var served := ServeView(owner.signer, IndexAt(index, ops, n), QueryOf(index, scope));
        served.Ok? && p.digest == owner.signer.hash(served.value))
  }

  /** Everything the reader remembers of this authority it was served. */
  ghost predicate Consistent(owner: Owner, index: Index, ops: seq<Insertion>, progress: map<ProgressKey, Progress>) {
    forall scope :: ProgressKey(index.authority, scope) in progress ==>
      exists n :: RecordedAt(owner, index, ops, scope, progress[ProgressKey(index.authority, scope)], n)
  }

  lemma {:induction false} OwnerKept(index: Index, ops: seq<Insertion>)
    ensures var last := InsertedAll(index, ops); (last.workspace, last.authority, last.epoch) == (index.workspace, index.authority, index.epoch)
  {
    hide Valid, Reused, Fits;
    if ops != [] { OwnerKept(index, ops[..|ops| - 1]); }
  }

  /** Two moments of a run with equal cuts serve the same bytes. */
  lemma SameCutSameReply(owner: Owner, index: Index, ops: seq<Insertion>, m: nat, n: nat, q: ViewQuery)
    requires Current.Sound(index) && m <= |ops| && n <= |ops|
    requires CutOf(IndexAt(index, ops, m), QueryScope(q)) == CutOf(IndexAt(index, ops, n), QueryScope(q))
    ensures ServeView(owner.signer, IndexAt(index, ops, m), q) == ServeView(owner.signer, IndexAt(index, ops, n), q)
  {
    hide Current.Sound, InsertedAll, Served, CutOf, ServeView;
    if m <= n { EqualCutsEqualValues(index, ops, m, n, QueryScope(q)); } else { EqualCutsEqualValues(index, ops, n, m, QueryScope(q)); }
    OwnerKept(index, ops[..m]);
    OwnerKept(index, ops[..n]);
    ServedDetermined(owner.signer, IndexAt(index, ops, m), IndexAt(index, ops, n), q);
  }

  /** A served reply verifies as the cut of the moment it was served. */
  lemma ServedVerifies(owner: Owner, index: Index, ops: seq<Insertion>, a: Arrival) returns (n: nat)
    requires Current.Sound(index) && Signs(owner.signer, index.authority) && ServedIn(owner, index, ops, a)
    ensures a.query == QueryOf(index, QueryScope(a.query))
    ensures n <= |ops| && ServeView(owner.signer, IndexAt(index, ops, n), a.query) == Ok(a.reply)
    ensures var v := VerifyReply(owner.signer, true, a.query, a.reply);
            v.Ok? && v.value.Some? && v.value.value.cut == CutOf(IndexAt(index, ops, n), QueryScope(a.query))
  {
    hide Current.Sound, InsertedAll, Served, CutOf, VerifyReply, Protect;
    n :| 0 <= n <= |ops| && ServeView(owner.signer, IndexAt(index, ops, n), a.query) == Ok(a.reply);
    RunSound(index, ops[..n]);
    OwnerKept(index, ops[..n]);
    ServedIsVerified(owner.signer, IndexAt(index, ops, n), a.query);
  }

  /** A view served anywhere in the run is never called conflicting, and
      accepting it keeps the reader consistent with the run. */
  lemma ServedNeverConflicts(owner: Owner, index: Index, ops: seq<Insertion>, r: ViewReader, a: Arrival)
    requires Current.Sound(index) && Signs(owner.signer, index.authority)
    requires Consistent(owner, index, ops, r.progress) && ServedIn(owner, index, ops, a)
    ensures !Accept(owner, r, a.query, a.reply, a.now).Conflicting?
    ensures Consistent(owner, index, ops, After(owner, r, a).progress)
  {
    hide Current.Sound, InsertedAll, CutOf, VerifyReply, ServeView, StageValues, ServedIn, IndexAt;
    NeedsCurrent(owner, a.query, a.reply);
    var n := ServedVerifies(owner, index, ops, a);
    var scope := QueryScope(a.query);
    if KeyOf(a.query) in r.progress {
      var p := r.progress[KeyOf(a.query)];
      var m :| RecordedAt(owner, index, ops, scope, p, m);
      if p.cut == CutOf(IndexAt(index, ops, n), scope) { SameCutSameReply(owner, index, ops, m, n, a.query); }
    }
    var outcome := Accept(owner, r, a.query, a.reply, a.now);
    if outcome.Accepted? && outcome.next != r {
      assert RecordedAt(owner, index, ops, scope, outcome.next.progress[KeyOf(a.query)], n);
    }
  }

  /** Replies about other authorities do not touch what is known of this one. */
  lemma OthersKeep(owner: Owner, index: Index, ops: seq<Insertion>, r: ViewReader, a: Arrival)
    requires Consistent(owner, index, ops, r.progress) && a.query.authority != index.authority
    ensures Consistent(owner, index, ops, After(owner, r, a).progress)
  {
    hide RecordedAt, StageValues, VerifyReply;
  }

  /** The authority's replies come from its run; other replies are arbitrary. */
  ghost predicate Genuine(owner: Owner, index: Index, ops: seq<Insertion>, arrivals: seq<Arrival>) {
    forall i :: 0 <= i < |arrivals| && arrivals[i].query.authority == index.authority ==> ServedIn(owner, index, ops, arrivals[i])
  }

  lemma {:induction false} StaysConsistent(owner: Owner, index: Index, ops: seq<Insertion>, r: ViewReader, arrivals: seq<Arrival>)
    requires Current.Sound(index) && Signs(owner.signer, index.authority) && r.progress == map[]
    requires Genuine(owner, index, ops, arrivals)
    ensures Consistent(owner, index, ops, AfterAll(owner, r, arrivals).progress)
    decreases |arrivals|
  {
    hide Current.Sound, Signs, ServedIn, Consistent, After;
    if arrivals == [] {
      NothingConsistent(owner, index, ops);
    } else {
      var front, a := arrivals[..|arrivals| - 1], arrivals[|arrivals| - 1];
      StaysConsistent(owner, index, ops, r, front);
      var before := AfterAll(owner, r, front);
      if a.query.authority == index.authority { ServedNeverConflicts(owner, index, ops, before, a); } else { OthersKeep(owner, index, ops, before, a); }
    }
  }

  lemma NothingConsistent(owner: Owner, index: Index, ops: seq<Insertion>)
    ensures Consistent(owner, index, ops, map[])
  {
  }

  lemma {:induction false} CutsRiseAlong(owner: Owner, r: ViewReader, arrivals: seq<Arrival>, m: nat, k: ProgressKey)
    requires m <= |arrivals| && k in AfterAll(owner, r, arrivals[..m]).progress
    ensures k in AfterAll(owner, r, arrivals).progress
    ensures AfterAll(owner, r, arrivals[..m]).progress[k].cut <= AfterAll(owner, r, arrivals).progress[k].cut
    decreases |arrivals|
  {
    hide Accept;
    if m < |arrivals| {
      var front, a := arrivals[..|arrivals| - 1], arrivals[|arrivals| - 1];
      assert front[..m] == arrivals[..m];
      CutsRiseAlong(owner, r, front, m, k);
      var before := AfterAll(owner, r, front);
      if Accept(owner, before, a.query, a.reply, a.now).Accepted? { CutsNeverFall(owner, before, a.query, a.reply, a.now); }
    } else {
      assert arrivals[..m] == arrivals;
    }
  }

  /** Reader monotonicity: whatever order the views of one authority's run
      arrive in, repeated or interleaved with other authorities' replies, none is
      ever called conflicting, recorded cuts never fall, and every cut recorded
      is one the run really had. */
  lemma ReaderMonotone(owner: Owner, index: Index, ops: seq<Insertion>, r: ViewReader, arrivals: seq<Arrival>, m: nat, scope: Scope)
    requires Current.Sound(index) && Signs(owner.signer, index.authority) && r.progress == map[]
    requires Genuine(owner, index, ops, arrivals) && m < |arrivals| && arrivals[m].query.authority == index.authority
    ensures var before, last := AfterAll(owner, r, arrivals[..m]), AfterAll(owner, r, arrivals);
            var k := ProgressKey(index.authority, scope);
            && !Accept(owner, before, arrivals[m].query, arrivals[m].reply, arrivals[m].now).Conflicting?
            && (k in before.progress ==> k in last.progress && before.progress[k].cut <= last.progress[k].cut)
            && (k in last.progress ==> exists n :: RecordedAt(owner, index, ops, scope, last.progress[k], n))
  {
    hide Current.Sound, Signs, ServedIn, After, Accept, RecordedAt, AfterAll;
    StaysConsistent(owner, index, ops, r, arrivals[..m]);
    StaysConsistent(owner, index, ops, r, arrivals);
    var before := AfterAll(owner, r, arrivals[..m]);
    ServedNeverConflicts(owner, index, ops, before, arrivals[m]);
    var k := ProgressKey(index.authority, scope);
    if k in before.progress { CutsRiseAlong(owner, r, arrivals, m, k); }
  }

  // ------------------------------------------------------------ in a loop

  /** The loop of `accept_current_view` over the verified values. */
  method StageView(host: Inbox.Host, inbox: Inbox.ObjectInbox, q: ViewQuery, endpoint: Id32, values: seq<CurrentValue>, now: u64) returns (r: Result<Staged>)
    ensures r == StageValues(host, Staged(inbox, 0, 0), q, endpoint, values, now)
    ensures r.Ok? ==> r.value.pending + r.value.stale <= |values|
  {
    hide StageValue, Inbox.Stage;
    var s := Staged(inbox, 0, 0);
    var i := 0;
    while i < |values|
      invariant i <= |values| && s.pending + s.stale <= i
      invariant StageValues(host, s, q, endpoint, values[i..], now) == StageValues(host, Staged(inbox, 0, 0), q, endpoint, values, now)
    {
      assert values[i..][0] == values[i] && values[i..][1..] == values[i + 1..];
      StageValueCounts(host, s, q, endpoint, values[i], now);
      var next := StageValue(host, s, q, endpoint, values[i], now);
      if next.Err? { return Err(next.error); }
      s := next.value;
      i := i + 1;
    }
    r := Ok(s);
  }

  lemma StageValueCounts(host: Inbox.Host, s: Staged, q: ViewQuery, endpoint: Id32, v: CurrentValue, now: u64)
    ensures var next := StageValue(host, s, q, endpoint, v, now);
            next.Ok? ==> s.pending + s.stale <= next.value.pending + next.value.stale <= s.pending + s.stale + 1
  {
    hide Inbox.Stage, Unpack;
  }
}
