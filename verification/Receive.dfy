/** Exact receive evidence. Models `ReceiveJournal` of
    crates/arachne-delivery/src/receive.rs: the journal as a value, what
    recording and recovering do to it, and the object that is updated in place. */
module Receive {
  import opened Bytes
  import opened Ordering
  import opened Publication
  import opened Retention
  import opened Selection
  import opened Wire

  const MAX_RECEIVE_RECORDS: nat := 256
  const MAX_RECOVERY_SELECTIONS: nat := 64
  const RECORD_DOMAIN: seq<byte> := Ascii("data-fabric/receive-record/v1\0")

  type RecordKey = (Id32, Id16)
  type SelectionKey = (Id32, Digest)

  datatype Journal = Journal(workspace: Id32, epoch: u64, records: map<RecordKey, Digest>, progress: map<SelectionKey, u64>)
  datatype Status = Unseen | Known | Conflicting

  /** The outcome of opening one packet with a disposable copy of the receiver. */
  datatype Opening = Unreadable | Opened(member: Id32, endpoint: Id32)

  function Evidence(sec: Security, c: Context, packet: seq<byte>): Digest {
    sec.hash(Framed(RECORD_DOMAIN, c, packet))
  }

  function CheckedDigest(sec: Security, j: Journal, c: Context, packet: seq<byte>): Result<Digest> {
    if c.workspace != j.workspace || |packet| == 0 || |packet| > MAX_APPLICATION_CIPHERTEXT then Err(InvalidPacket)
    else Ok(Evidence(sec, c, packet))
  }

  function CheckRecord(sec: Security, j: Journal, author: Id32, c: Context, packet: seq<byte>): Result<Status> {
    var digest :- CheckedDigest(sec, j, c, packet);
    Ok(if (author, c.id) !in j.records then Unseen else if j.records[(author, c.id)] == digest then Known else Conflicting)
  }

  /** `record_verified`. */
  function Recorded(sec: Security, j: Journal, member: Id32, c: Context, packet: seq<byte>): Result<Journal> {
    var status :- CheckRecord(sec, j, member, c, packet);
    match status
    case Known => Ok(j)
    case Conflicting => Err(ConflictingPublication)
    case Unseen =>
      if |j.records| == MAX_RECEIVE_RECORDS then Err(CapacityExhausted)
      else Ok(j.(records := j.records[(member, c.id) := Evidence(sec, c, packet)]))
  }

  /** One packet of an offer: known evidence is only counted, a conflict or an
      unreadable or foreign packet stops everything, the rest is recorded. */
  function Absorbed(sec: Security, j: Journal, author: Id32, endpoint: Id32, p: Recovered, o: Opening): Result<Journal> {
    var status :- CheckRecord(sec, j, author, p.context, p.ciphertext);
    match status
    case Known => Ok(j)
    case Conflicting => Err(ConflictingPublication)
    case Unseen =>
      if o.Unreadable? then Err(Undecryptable) else
      if (o.member, o.endpoint) != (author, endpoint) then Err(AuthorMismatch) else
      Recorded(sec, j, o.member, p.context, p.ciphertext)
  }

  function AbsorbedAll(sec: Security, j: Journal, author: Id32, endpoint: Id32, ps: seq<Recovered>, openings: nat -> Opening, k: nat): Result<Journal>
    requires k <= |ps|
    decreases |ps| - k
  {
    if k == |ps| then Ok(j) else
    var next :- Absorbed(sec, j, author, endpoint, ps[k], openings(k));
    AbsorbedAll(sec, next, author, endpoint, ps, openings, k + 1)
  }

  datatype Stage = AlreadyCovered | Prepared(received: Journal) | TurnedDown(error: Rejection)

  function ProgressOf(j: Journal, key: SelectionKey): u64 {
    if key in j.progress then j.progress[key] else 0
  }

  function KeyOf(sec: Security, q: RangeQuery): SelectionKey {
    (q.author, SelectionDigest(sec, q.topics))
  }

  /** Why a verified offer may not be staged at all. */
  function Continues(sec: Security, j: Journal, q: RangeQuery): Option<Error> {
    if q.after != ProgressOf(j, KeyOf(sec, q)) then Some(Discontinuous) else
    if KeyOf(sec, q) !in j.progress && |j.progress| == MAX_RECOVERY_SELECTIONS then Some(CapacityExhausted) else None
  }

  /** `prepare_recovery`: `ownerMatches` says that journal, publisher index and
      security owner are of the same workspace and epoch; `endpoint` is the
      author's transport identity in the roster. */
  function Prepare(sec: Security, j: Journal, ownerMatches: bool, endpoint: Id32, q: RangeQuery, reply: seq<byte>, openings: nat -> Opening): Result<Stage> {
    if !ownerMatches then Err(NotCurrent) else
    var verified :- Verify(sec, q, reply);
    match verified
    case Declined(e) => Ok(TurnedDown(e))
    case Offered(ps) =>
      if q.through <= ProgressOf(j, KeyOf(sec, q)) then Ok(AlreadyCovered) else
      if Continues(sec, j, q).Some? then Err(Continues(sec, j, q).value) else
      var received :- AbsorbedAll(sec, j, q.author, endpoint, ps, openings, 0);
      Ok(Prepared(received.(progress := received.progress[KeyOf(sec, q) := q.through])))
  }

  // --------------------------------------------------- evidence is never lost

  /** Evidence only accumulates; what was recorded stays as recorded. */
  predicate Extends(j: Journal, next: Journal) {
    && next.workspace == j.workspace && next.epoch == j.epoch && next.progress == j.progress
    && forall k :: k in j.records ==> k in next.records && next.records[k] == j.records[k]
  }

  predicate Has(sec: Security, j: Journal, author: Id32, c: Context, packet: seq<byte>) {
    (author, c.id) in j.records && j.records[(author, c.id)] == Evidence(sec, c, packet)
  }

  lemma AbsorbedHas(sec: Security, j: Journal, author: Id32, endpoint: Id32, p: Recovered, o: Opening)
    requires Absorbed(sec, j, author, endpoint, p, o).Ok?
    ensures var next := Absorbed(sec, j, author, endpoint, p, o).value;
            Extends(j, next) && Has(sec, next, author, p.context, p.ciphertext)
  {
    hide Evidence;
  }

  /** A staged recovery holds the exact evidence of every packet offered. */
  lemma {:induction false} AbsorbedAllHas(sec: Security, j: Journal, author: Id32, endpoint: Id32, ps: seq<Recovered>, openings: nat -> Opening, k: nat)
    requires k <= |ps| && AbsorbedAll(sec, j, author, endpoint, ps, openings, k).Ok?
    ensures var end := AbsorbedAll(sec, j, author, endpoint, ps, openings, k).value;
            Extends(j, end) && forall i :: k <= i < |ps| ==> Has(sec, end, author, ps[i].context, ps[i].ciphertext)
    decreases |ps| - k
  {
    hide Evidence, Absorbed;
    if k < |ps| {
      AbsorbedHas(sec, j, author, endpoint, ps[k], openings(k));
      AbsorbedAllHas(sec, Absorbed(sec, j, author, endpoint, ps[k], openings(k)).value, author, endpoint, ps, openings, k + 1);
    }
  }

  /** Nothing stands against taking in a packet: its evidence is already here, or
      its number is free and it opens as the author's. */
  predicate Takeable(sec: Security, j: Journal, author: Id32, endpoint: Id32, p: Recovered, o: Opening) {
    && p.context.workspace == j.workspace && 0 < |p.ciphertext| <= MAX_APPLICATION_CIPHERTEXT
    && if (author, p.context.id) in j.records then Has(sec, j, author, p.context, p.ciphertext) else o == Opened(author, endpoint)
  }

  predicate OwnIds(ps: seq<Recovered>) { forall i, j :: 0 <= i < j < |ps| ==> ps[i].context.id != ps[j].context.id }

  /** How many packets from the k-th on bring new evidence. */
  function NewOnes(j: Journal, author: Id32, ps: seq<Recovered>, k: nat): nat
    requires k <= |ps|
    decreases |ps| - k
  {
    if k == |ps| then 0 else (if (author, ps[k].context.id) in j.records then 0 else 1) + NewOnes(j, author, ps, k + 1)
  }

  lemma {:induction false} NewOnesKept(j: Journal, next: Journal, author: Id32, id: Id16, ps: seq<Recovered>, k: nat)
    requires k <= |ps| && next.records.Keys == j.records.Keys + {(author, id)} && forall i :: k <= i < |ps| ==> ps[i].context.id != id
    ensures NewOnes(next, author, ps, k) == NewOnes(j, author, ps, k)
    decreases |ps| - k
  {
    if k < |ps| { NewOnesKept(j, next, author, id, ps, k + 1); }
  }

  /** Nothing stands against any packet from the k-th on. */
  ghost predicate AllTakeable(sec: Security, j: Journal, author: Id32, endpoint: Id32, ps: seq<Recovered>, openings: nat -> Opening, k: nat) {
    forall i :: k <= i < |ps| ==> Takeable(sec, j, author, endpoint, ps[i], openings(i))
  }

  lemma TakeableNext(sec: Security, j: Journal, author: Id32, endpoint: Id32, ps: seq<Recovered>, openings: nat -> Opening, k: nat)
    requires k < |ps|
    ensures AllTakeable(sec, j, author, endpoint, ps, openings, k) <==>
              Takeable(sec, j, author, endpoint, ps[k], openings(k)) && AllTakeable(sec, j, author, endpoint, ps, openings, k + 1)
  {
    hide Takeable;
  }

  /** Evidence for one packet changes nothing for packets of other ids. */
  lemma TakeableKept(sec: Security, j: Journal, next: Journal, author: Id32, endpoint: Id32, ps: seq<Recovered>, openings: nat -> Opening, k: nat)
    requires k < |ps| && OwnIds(ps)
    requires next == j.(records := j.records[(author, ps[k].context.id) := Evidence(sec, ps[k].context, ps[k].ciphertext)])
    ensures AllTakeable(sec, next, author, endpoint, ps, openings, k + 1) <==> AllTakeable(sec, j, author, endpoint, ps, openings, k + 1)
  {
    hide Evidence;
    forall i | k + 1 <= i < |ps| ensures Takeable(sec, next, author, endpoint, ps[i], openings(i)) == Takeable(sec, j, author, endpoint, ps[i], openings(i)) {
      assert ps[i].context.id != ps[k].context.id;
    }
  }

  /** The packets of an offer are all taken in exactly when nothing stands against
      any of them and there is room for the new ones. */
  lemma {:induction false} AbsorbedAllExactly(sec: Security, j: Journal, author: Id32, endpoint: Id32, ps: seq<Recovered>, openings: nat -> Opening, k: nat)
    requires k <= |ps| && OwnIds(ps) && |j.records| <= MAX_RECEIVE_RECORDS
    ensures AbsorbedAll(sec, j, author, endpoint, ps, openings, k).Ok? <==>
              AllTakeable(sec, j, author, endpoint, ps, openings, k) && |j.records| + NewOnes(j, author, ps, k) <= MAX_RECEIVE_RECORDS
    decreases |ps| - k
  {
    if k == |ps| { return; }
    hide Evidence, Absorbed, Takeable, AllTakeable, OwnIds;
    var p := ps[k];
    AbsorbedExactly(sec, j, author, endpoint, p, openings(k));
    TakeableNext(sec, j, author, endpoint, ps, openings, k);
    if Takeable(sec, j, author, endpoint, p, openings(k)) {
      if (author, p.context.id) in j.records {
        AbsorbedAllExactly(sec, j, author, endpoint, ps, openings, k + 1);
      } else if |j.records| < MAX_RECEIVE_RECORDS {
        var next := Absorbed(sec, j, author, endpoint, p, openings(k)).value;
        TakeableKept(sec, j, next, author, endpoint, ps, openings, k);
        OtherIds(ps, k);
        NewOnesKept(j, next, author, p.context.id, ps, k + 1);
        AbsorbedAllExactly(sec, next, author, endpoint, ps, openings, k + 1);
      }
    }
  }

  lemma OtherIds(ps: seq<Recovered>, k: nat)
    requires OwnIds(ps) && k < |ps|
    ensures forall i :: k + 1 <= i < |ps| ==> ps[i].context.id != ps[k].context.id
  {
  }

  lemma AbsorbedExactly(sec: Security, j: Journal, author: Id32, endpoint: Id32, p: Recovered, o: Opening)
    ensures var r := Absorbed(sec, j, author, endpoint, p, o);
            if !Takeable(sec, j, author, endpoint, p, o) then r.Err?
            else if (author, p.context.id) in j.records then r == Ok(j)
            else if |j.records| == MAX_RECEIVE_RECORDS then r.Err?
            else && r == Ok(j.(records := j.records[(author, p.context.id) := Evidence(sec, p.context, p.ciphertext)]))
                 && |r.value.records| == |j.records| + 1 && r.value.records.Keys == j.records.Keys + {(author, p.context.id)}
  {
    hide Evidence;
    assert j.records[(author, p.context.id) := Evidence(sec, p.context, p.ciphertext)].Keys == j.records.Keys + {(author, p.context.id)};
  }

  /** A live packet is recorded exactly when it is one of this workspace and its
      evidence is already here, or its id is free and there is room; known
      evidence changes nothing, new evidence is added under its author and id. */
  lemma RecordExactly(sec: Security, j: Journal, member: Id32, c: Context, packet: seq<byte>)
    ensures var fine := c.workspace == j.workspace && 0 < |packet| <= MAX_APPLICATION_CIPHERTEXT;
            && (CheckRecord(sec, j, member, c, packet).Ok? <==> fine)
            && (CheckRecord(sec, j, member, c, packet) == Ok(Known) <==> fine && Has(sec, j, member, c, packet))
            && (CheckRecord(sec, j, member, c, packet) == Ok(Unseen) <==> fine && (member, c.id) !in j.records)
            && (Recorded(sec, j, member, c, packet).Ok? <==>
                  fine && (Has(sec, j, member, c, packet) || ((member, c.id) !in j.records && |j.records| != MAX_RECEIVE_RECORDS)))
            && (Recorded(sec, j, member, c, packet).Ok? ==>
                  Recorded(sec, j, member, c, packet).value
                  == if Has(sec, j, member, c, packet) then j else j.(records := j.records[(member, c.id) := Evidence(sec, c, packet)]))
  {
    hide Evidence;
  }

  /** A verified offer never names a publication twice. */
  lemma OfferedOwnIds(sec: Security, q: RangeQuery, bytes: seq<byte>)
    requires Verify(sec, q, bytes).Ok? && Verify(sec, q, bytes).value.Offered?
    ensures OwnIds(Verify(sec, q, bytes).value.packets)
  {
    hide Verify, OfferHolds, Fitting;
    var offer, sequenced := OfferedHolds(sec, q, bytes, Verify(sec, q, bytes).value.packets);
  }

  /** What a reply does to a journal, exactly: a verified offer is staged when the
      owner is current, it goes beyond the recorded progress and continues it,
      there is room for its selection and its new records, and nothing stands
      against any packet. Then progress is its end and nothing else is forgotten. */
  lemma PrepareExactly(sec: Security, j: Journal, ownerMatches: bool, endpoint: Id32, q: RangeQuery, reply: seq<byte>, openings: nat -> Opening)
    requires |j.records| <= MAX_RECEIVE_RECORDS
    ensures var r := Prepare(sec, j, ownerMatches, endpoint, q, reply, openings);
            var v := Verify(sec, q, reply);
            && (r.Ok? ==> ownerMatches && v.Ok?)
            && (forall e :: r == Ok(TurnedDown(e)) <==> ownerMatches && v == Ok(Declined(e)))
            && (r == Ok(AlreadyCovered) <==> ownerMatches && v.Ok? && v.value.Offered? && q.through <= ProgressOf(j, KeyOf(sec, q)))
            && ((r.Ok? && r.value.Prepared?) <==>
                  && ownerMatches && v.Ok? && v.value.Offered?
                  && q.after == ProgressOf(j, KeyOf(sec, q)) < q.through
                  && (KeyOf(sec, q) in j.progress || |j.progress| != MAX_RECOVERY_SELECTIONS)
                  && AllTakeable(sec, j, q.author, endpoint, v.value.packets, openings, 0)
                  && |j.records| + NewOnes(j, q.author, v.value.packets, 0) <= MAX_RECEIVE_RECORDS)
            && (r.Ok? && r.value.Prepared? ==>
                  && r.value.received.progress == j.progress[KeyOf(sec, q) := q.through]
                  && forall k :: k in j.records ==> k in r.value.received.records && r.value.received.records[k] == j.records[k])
  {
    hide Verify, SelectionDigest, AbsorbedAll, AllTakeable, NewOnes;
    var v := Verify(sec, q, reply);
    if v.Ok? && v.value.Offered? {
      OfferedOwnIds(sec, q, reply);
      AbsorbedAllExactly(sec, j, q.author, endpoint, v.value.packets, openings, 0);
      if AbsorbedAll(sec, j, q.author, endpoint, v.value.packets, openings, 0).Ok? { AbsorbedAllHas(sec, j, q.author, endpoint, v.value.packets, openings, 0); }
    }
  }

  /** Recovery makes progress: an honest reply that continues the recorded
      progress, in which nothing conflicts and whose new packets open as the
      author's, is staged if and only if the journal has room for the new ones;
      then its end is the new progress and every packet has its evidence. */
  lemma RecoveryAdvances(sec: Security, log: Log, past: seq<Record>, j: Journal, endpoint: Id32, q: RangeQuery, openings: nat -> Opening)
    requires Faithful(log, past) && Serve(sec, log, true, q).Ok? && Serve(sec, log, true, q).value.Offers?
    requires j.workspace == log.workspace && Continues(sec, j, q).None? && |j.records| <= MAX_RECEIVE_RECORDS
    requires var ps := Serve(sec, log, true, q).value.packets;
             && |ps| <= MAX_RECOVERY_PACKETS && OfferOpens(sec, q, ps)
             && forall i :: 0 <= i < |ps| ==>
                  if (q.author, ps[i].context.id) in j.records then Has(sec, j, q.author, ps[i].context, ps[i].ciphertext)
                  else openings(i) == Opened(q.author, endpoint)
    ensures var served := Serve(sec, log, true, q).value;
            var r := Prepare(sec, j, true, endpoint, q, ServedBytes(served), openings);
            && (r.Ok? <==> |j.records| + NewOnes(j, q.author, served.packets, 0) <= MAX_RECEIVE_RECORDS)
            && (r.Ok? ==> r.value.Prepared? && ProgressOf(r.value.received, KeyOf(sec, q)) == q.through)
            && (r.Ok? ==> forall i :: 0 <= i < |served.packets| ==> Has(sec, r.value.received, q.author, served.packets[i].context, served.packets[i].ciphertext))
  {
    hide Faithful, Serve, Verify, Window, SelectionDigest, Evidence, ServedBytes, AbsorbedAll, PacketsSize, Sequenced, Digests, RequestOf, OfferOpens, NewOnes;
    ServedWindow(sec, log, past, true, q);
    ServedIsVerified(sec, log, past, true, q);
    var rs := Window(past, q.topics, q.after, q.through);
    var ps := Carried(rs);
    forall i | 0 <= i < |ps| ensures Takeable(sec, j, q.author, endpoint, ps[i], openings(i)) { assert Admissible(q.workspace, rs[i]); }
    AbsorbedAllExactly(sec, j, q.author, endpoint, ps, openings, 0);
    if AbsorbedAll(sec, j, q.author, endpoint, ps, openings, 0).Ok? { AbsorbedAllHas(sec, j, q.author, endpoint, ps, openings, 0); }
  }

  // ------------------------------------------------------------- in place

  class ReceiveJournal {
    const workspace: Id32
    const epoch: u64
    var records: map<RecordKey, Digest>
    var progress: map<SelectionKey, u64>

    function State(): Journal
      reads this
    {
      Journal(workspace, epoch, records, progress)
    }

    constructor (workspace: Id32, epoch: u64)
      ensures State() == Journal(workspace, epoch, map[], map[])
    {
      this.workspace, this.epoch := workspace, epoch;
      records, progress := map[], map[];
    }

    constructor Clone(from: ReceiveJournal)
      ensures State() == from.State()
    {
      workspace, epoch := from.workspace, from.epoch;
      records, progress := from.records, from.progress;
    }

    method Check(sec: Security, author: Id32, c: Context, packet: seq<byte>) returns (r: Result<Status>)
      ensures r == CheckRecord(sec, State(), author, c, packet)
      ensures r == Ok(Known) ==> Has(sec, State(), author, c, packet)
    {
      var digest := CheckedDigest(sec, State(), c, packet);
      if digest.Err? { return Err(digest.error); }
      if (author, c.id) !in records { return Ok(Unseen); }
      r := Ok(if records[(author, c.id)] == digest.value then Known else Conflicting);
    }

    /** Record one authenticated packet; a refusal changes nothing. */
    method RecordVerified(sec: Security, member: Id32, c: Context, packet: seq<byte>) returns (r: Result<()>)
      modifies this`records
      ensures r.Ok? ==> Recorded(sec, old(State()), member, c, packet) == Ok(State())
                        && Has(sec, State(), member, c, packet) && Extends(old(State()), State())
      ensures r.Err? ==> Recorded(sec, old(State()), member, c, packet) == Err(r.error) && State() == old(State())
    {
      var status := Check(sec, member, c, packet);
      if status.Err? { return Err(status.error); }
      match status.value {
        case Known => return Ok(());
        case Conflicting => return Err(ConflictingPublication);
        case Unseen =>
      }
      if |records| == MAX_RECEIVE_RECORDS { return Err(CapacityExhausted); }
      records := records[(member, c.id) := Evidence(sec, c, packet)];
      r := Ok(());
    }

    /** Take in one packet of an offer, or say why not. */
    method Absorb(sec: Security, author: Id32, endpoint: Id32, p: Recovered, o: Opening) returns (r: Result<()>)
      modifies this`records
      ensures r.Ok? ==> Absorbed(sec, old(State()), author, endpoint, p, o) == Ok(State())
      ensures r.Err? ==> Absorbed(sec, old(State()), author, endpoint, p, o) == Err(r.error) && State() == old(State())
    {
      hide Evidence, CheckRecord, Extends, Has, Recorded;
      var status := Check(sec, author, p.context, p.ciphertext);
      if status.Err? { return Err(status.error); }
      match status.value {
        case Known => return Ok(());
        case Conflicting => return Err(ConflictingPublication);
        case Unseen =>
      }
      if o.Unreadable? { return Err(Undecryptable); }
      if (o.member, o.endpoint) != (author, endpoint) { return Err(AuthorMismatch); }
      r := RecordVerified(sec, o.member, p.context, p.ciphertext);
    }

    /** Take in the packets of an offer one by one, up to the first refusal. */
    method AbsorbPackets(sec: Security, author: Id32, endpoint: Id32, ps: seq<Recovered>, openings: nat -> Opening) returns (r: Result<()>)
      modifies this`records
      ensures r.Ok? ==> AbsorbedAll(sec, old(State()), author, endpoint, ps, openings, 0) == Ok(State())
      ensures r.Err? ==> AbsorbedAll(sec, old(State()), author, endpoint, ps, openings, 0) == Err(r.error)
    {
      hide Absorbed;
      var k := 0;
      while k < |ps|
        invariant k <= |ps|
        invariant AbsorbedAll(sec, State(), author, endpoint, ps, openings, k) == AbsorbedAll(sec, old(State()), author, endpoint, ps, openings, 0)
      {
        var done := Absorb(sec, author, endpoint, ps[k], openings(k));
        if done.Err? { return Err(done.error); }
        k := k + 1;
      }
      r := Ok(());
    }

    /** Stage a recovery in a copy; this journal is left as it is. */
    method PrepareRecovery(sec: Security, ownerMatches: bool, endpoint: Id32, q: RangeQuery, reply: seq<byte>, openings: nat -> Opening)
      returns (r: Result<Stage>)
      ensures r == Prepare(sec, State(), ownerMatches, endpoint, q, reply, openings)
    {
      hide Verify, SelectionDigest, AbsorbedAll;
      if !ownerMatches { return Err(NotCurrent); }
      var verified := VerifyReply(sec, q, reply);
      if verified.Err? { return Err(verified.error); }
      if verified.value.Declined? { return Ok(TurnedDown(verified.value.error)); }
      var ps := verified.value.packets;
      var key := KeyOf(sec, q);
      var after := if key in progress then progress[key] else 0;
      if q.through <= after { return Ok(AlreadyCovered); }
      if q.after != after { return Err(Discontinuous); }
      if key !in progress && |progress| == MAX_RECOVERY_SELECTIONS { return Err(CapacityExhausted); }
      var received := new ReceiveJournal.Clone(this);
      var done := received.AbsorbPackets(sec, q.author, endpoint, ps, openings);
      if done.Err? { return Err(done.error); }
      received.progress := received.progress[key := q.through];
      r := Ok(Prepared(received.State()));
    }
  }
}
