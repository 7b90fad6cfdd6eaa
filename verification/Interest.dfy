/** Serialised announcements of local interests. Models `Updates` of
    crates/arachne-runtime/src/interest.rs. The node's answers, the clock and the
    outcome of a finished announcement are inputs of each step. */
module Interest {
  import opened Bytes
  import opened Ordering
  import opened Publication

  const MAX_INTERESTS: nat := 64

  datatype Update = Update(workspace: Id32, revision: u64, topic: seq<byte>, subscribed: bool)

  datatype Key = Key(workspace: Id32, topic: seq<byte>)

  /** `retry` says that `retry_at` is set. */
  datatype State = State(pending: Option<Update>, queued: seq<Update>, desired: map<Key, Update>, repair: seq<Update>, retry: bool)

  const EMPTY: State := State(None, [], map[], [], false)

  function KeyOf(u: Update): Key { Key(u.workspace, u.topic) }

  predicate IsIdle(s: State) { s.pending.None? && s.queued == [] && s.repair == [] }

  function Position(us: seq<Update>, k: Key): (r: Option<nat>)
    ensures r.Some? ==> r.value < |us| && KeyOf(us[r.value]) == k
    ensures r.None? ==> forall i :: 0 <= i < |us| ==> KeyOf(us[i]) != k
  {
    if us == [] then None else
    if KeyOf(us[0]) == k then Some(0) else
    match Position(us[1..], k)
    case None => None
    case Some(i) => Some(i + 1)
  }

  predicate Has(us: seq<Update>, k: Key) { exists i :: 0 <= i < |us| && KeyOf(us[i]) == k }

  function Without(us: seq<Update>, k: Key): (r: seq<Update>)
    ensures forall u :: u in r <==> u in us && KeyOf(u) != k
  {
    if us == [] then [] else (if KeyOf(us[0]) != k then [us[0]] else []) + Without(us[1..], k)
  }

  /** What a new policy revision of a workspace leaves: updates of other workspaces
      and of that revision. */
  predicate Stays(u: Update, workspace: Id32, revision: u64) { u.workspace != workspace || u.revision == revision }

  function Surviving(us: seq<Update>, workspace: Id32, revision: u64): (r: seq<Update>)
    ensures forall u :: u in r <==> u in us && Stays(u, workspace, revision)
  {
    if us == [] then [] else (if us[0].workspace != workspace || us[0].revision == revision then [us[0]] else []) + Surviving(us[1..], workspace, revision)
  }

  // --------------------------------------------------------------- operations

  /** The state once the node agreed to announce an update. */
  function Wanted(s: State, u: Update): State {
    s.(desired := s.desired[KeyOf(u) := u], repair := Without(s.repair, KeyOf(u)))
  }

  function Enqueued(s: State, u: Update): State {
    var at := Position(s.queued, KeyOf(u));
    if IsIdle(s) then s.(pending := Some(u)) else
    if at.Some? then s.(queued := s.queued[at.value := u]) else s.(queued := s.queued + [u])
  }

  /** `set`; None refuses and changes nothing. */
  function TrySet(s: State, u: Update, prepared: bool): Option<State> {
    if Position(s.queued, KeyOf(u)).None? && |s.queued| >= MAX_INTERESTS then None else
    if KeyOf(u) !in s.desired && |s.desired| >= MAX_INTERESTS then None else
    if !ValidTopic(u.topic) || !prepared then None else
    Some(Enqueued(Wanted(s, u), u))
  }

  predicate KeyLess(a: Key, b: Key) { Less(a.workspace, b.workspace) || (a.workspace == b.workspace && Less(a.topic, b.topic)) }

  lemma KeyOrder()
    ensures TotalOrder(KeyLess)
  {
    LessIsTotalOrder();
    hide Less;
  }

  function Listed(desired: map<Key, Update>): (r: seq<Key>)
    ensures Increasing(KeyLess, r) && |r| == |desired| && forall k :: k in r <==> k in desired
  {
    KeyOrder();
    Ascending(KeyLess, desired.Keys)
  }

  /** The desired updates of these keys that are not queued. */
  function Unqueued(keys: seq<Key>, desired: map<Key, Update>, queued: seq<Update>): seq<Update>
    requires forall k :: k in keys ==> k in desired
  {
    if keys == [] then [] else
    (if Position(queued, keys[0]).None? then [desired[keys[0]]] else []) + Unqueued(keys[1..], desired, queued)
  }

  /** `repair`. */
  function Repaired(s: State): State { s.(repair := Unqueued(Listed(s.desired), s.desired, s.queued)) }

  /** `replace_revision`. */
  function Replaced(s: State, workspace: Id32, revision: u64): State {
    State(if s.pending.Some? && s.pending.value.workspace == workspace && s.pending.value.revision != revision then None else s.pending,
          Surviving(s.queued, workspace, revision),
          map k | k in s.desired && (k.workspace != workspace || s.desired[k].revision == revision) :: s.desired[k],
          Surviving(s.repair, workspace, revision), s.retry)
  }

  /** How a finished announcement ended. */
  datatype Outcome = Reached(failures: bool) | Broken

  predicate Clean(o: Outcome) { o.Reached? && !o.failures }

  /** The withdrawal `u` is done and still what is wanted. */
  predicate Withdrawn(s: State, u: Update, o: Outcome) {
    Clean(o) && !u.subscribed && KeyOf(u) in s.desired && !s.desired[KeyOf(u)].subscribed && s.desired[KeyOf(u)].revision == u.revision
  }

  function Observed(s: State, o: Outcome): State
    requires s.pending.Some?
  {
    var u := s.pending.value;
    s.(pending := None, retry := s.retry || !Clean(o), desired := if Withdrawn(s, u, o) then s.desired - {KeyOf(u)} else s.desired)
  }

  /** What `poll` would announce next. */
  function Front(s: State): Option<Update> {
    if s.pending.Some? then None else
    if s.queued != [] then Some(s.queued[0]) else
    if s.repair != [] then Some(s.repair[0]) else None
  }

  function Dequeued(s: State): State {
    if Front(s).None? then s else
    if s.queued != [] then s.(queued := s.queued[1..]) else s.(repair := s.repair[1..])
  }

  function Dispatched(s: State, prepared: bool): State {
    Dequeued(s).(pending := if Front(s).Some? && prepared then Front(s) else s.pending)
  }

  function Retried(s: State, due: bool): State {
    if IsIdle(s) && s.retry && due then Repaired(s.(retry := false)) else s
  }

  function Settled(s: State, finished: Option<Outcome>): State {
    if s.pending.Some? && finished.Some? then Observed(s, finished.value) else s
  }

  /** `poll`. */
  function Polled(s: State, due: bool, finished: Option<Outcome>, prepared: bool): State {
    Dispatched(Settled(Retried(s, due), finished), prepared)
  }

  // -------------------------------------------------------------------- runs

  datatype Event =
    | Set(update: Update, prepared: bool)
    | Repair
    | ReplaceRevision(workspace: Id32, revision: u64)
    | Poll(due: bool, finished: Option<Outcome>, prepared: bool)
    | Cancel

  function Next(s: State, e: Event): State {
    match e
    case Set(u, prepared) => var next := TrySet(s, u, prepared); if next.Some? then next.value else s
    case Repair => Repaired(s)
    case ReplaceRevision(workspace, revision) => Replaced(s, workspace, revision)
    case Poll(due, finished, prepared) => Polled(s, due, finished, prepared)
    case Cancel => EMPTY
  }

  /** What a poll finds to announce. */
  function Offered(s: State, e: Event): Option<Update> {
    if e.Poll? then Front(Settled(Retried(s, e.due), e.finished)) else None
  }

  /** The update an event puts in flight. */
  function InFlight(s: State, e: Event): Option<Update> {
    match e
    case Set(u, prepared) => if TrySet(s, u, prepared).Some? && IsIdle(Wanted(s, u)) then Some(u) else None
    case Poll(_, _, prepared) => if prepared then Offered(s, e) else None
    case _ => None
  }

  /** The node refuses an update that was waiting. */
  predicate Refuses(s: State, e: Event) { e.Poll? && !e.prepared && Offered(s, e).Some? }

  /** What was asked for last, announced last and confirmed by every peer, by key.
      A repair means peers may have forgotten, so it forgets confirmations. */
  datatype Trace = Trace(state: State, latest: map<Key, Update>, sent: map<Key, Update>, confirmed: map<Key, Update>)

  function Confirmed(t: Trace, e: Event): map<Key, Update> {
    match e
    case Repair => map[]
    case Poll(due, finished, _) =>
      var kept := if Retried(t.state, due) == t.state then t.confirmed else map[];
      if t.state.pending.Some? && finished.Some? && Clean(finished.value) then kept[KeyOf(t.state.pending.value) := t.state.pending.value] else kept
    case _ => t.confirmed
  }

  function Step(t: Trace, e: Event): Trace {
    var flying := InFlight(t.state, e);
    Trace(Next(t.state, e),
          if e.Set? && TrySet(t.state, e.update, e.prepared).Some? then t.latest[KeyOf(e.update) := e.update] else t.latest,
          if flying.Some? then t.sent[KeyOf(flying.value) := flying.value] else t.sent,
          if flying.Some? then Confirmed(t, e) - {KeyOf(flying.value)} else Confirmed(t, e))
  }

  const START: Trace := Trace(EMPTY, map[], map[], map[])

  function Run(events: seq<Event>): Trace {
    if events == [] then START else Step(Run(events[..|events| - 1]), events[|events| - 1])
  }

  // -------------------------------------------------------------- invariants

  /** At most one entry per key. */
  predicate OnePerKey(us: seq<Update>) { forall i, j :: 0 <= i < j < |us| ==> KeyOf(us[i]) != KeyOf(us[j]) }

  predicate Disjoint(queued: seq<Update>, repair: seq<Update>) {
    forall u, v :: u in queued && v in repair ==> KeyOf(u) != KeyOf(v)
  }

  /** Entries are valid, and are what is desired if their key still is. */
  predicate Agree(us: seq<Update>, desired: map<Key, Update>) {
    forall u :: u in us ==> ValidTopic(u.topic) && (KeyOf(u) in desired ==> desired[KeyOf(u)] == u)
  }

  predicate Labelled(desired: map<Key, Update>) {
    forall k :: k in desired ==> KeyOf(desired[k]) == k && ValidTopic(k.topic)
  }

  predicate Bounded(s: State) { |s.queued| <= MAX_INTERESTS && |s.desired| <= MAX_INTERESTS }

  predicate Sound(s: State) {
    && OnePerKey(s.queued) && OnePerKey(s.repair) && Disjoint(s.queued, s.repair)
    && Agree(s.queued, s.desired) && Agree(s.repair, s.desired) && Labelled(s.desired) && Bounded(s)
  }

  // ------------------------------------------------------------------- lists

  lemma {:induction false} FilteredOnce(us: seq<Update>, r: seq<Update>, k: Key)
    requires OnePerKey(us) && r == Without(us, k)
    ensures OnePerKey(r)
  {
    if us != [] { FilteredOnce(us[1..], Without(us[1..], k), k); FrontApart(us); }
  }

  /** The front of a list shares its key with nothing behind it. */
  lemma FrontApart(us: seq<Update>)
    requires OnePerKey(us) && us != []
    ensures OnePerKey(us[1..]) && forall u :: u in us[1..] ==> KeyOf(u) != KeyOf(us[0])
  {
  }

  lemma {:induction false} SurvivingOnce(us: seq<Update>, workspace: Id32, revision: u64)
    requires OnePerKey(us)
    ensures OnePerKey(Surviving(us, workspace, revision)) && |Surviving(us, workspace, revision)| <= |us|
  {
    if us != [] { SurvivingOnce(us[1..], workspace, revision); FrontApart(us); }
  }

  lemma {:induction false} UnqueuedMembers(keys: seq<Key>, desired: map<Key, Update>, queued: seq<Update>, u: Update)
    requires Labelled(desired) && forall k :: k in keys ==> k in desired
    ensures u in Unqueued(keys, desired, queued) <==> KeyOf(u) in keys && desired[KeyOf(u)] == u && !Has(queued, KeyOf(u))
  {
    hide Position, KeyOf, Has;
    if keys != [] {
      PositionIsHas(queued, keys[0]);
      assert keys[0] in keys && keys == [keys[0]] + keys[1..];
      UnqueuedMembers(keys[1..], desired, queued, u);
    }
  }

  lemma PositionIsHas(us: seq<Update>, k: Key)
    ensures Position(us, k).Some? <==> Has(us, k)
  {
    var at := Position(us, k);
    hide Position;
    if at.Some? { assert KeyOf(us[at.value]) == k; }
  }

  lemma {:induction false} UnqueuedOnce(keys: seq<Key>, desired: map<Key, Update>, queued: seq<Update>)
    requires Labelled(desired) && (forall k :: k in keys ==> k in desired) && forall i, j :: 0 <= i < j < |keys| ==> keys[i] != keys[j]
    ensures OnePerKey(Unqueued(keys, desired, queued))
  {
    hide Position, KeyOf, Has;
    if keys != [] {
      assert keys[0] in keys;
      UnqueuedOnce(keys[1..], desired, queued);
      var rest := Unqueued(keys[1..], desired, queued);
      forall i | 0 <= i < |rest| ensures KeyOf(rest[i]) != keys[0] {
        UnqueuedMembers(keys[1..], desired, queued, rest[i]);
      }
    }
  }

  /** The repair list holds exactly the desired updates that are not queued. */
  lemma RepairedIs(s: State)
    requires Labelled(s.desired)
    ensures var r := Repaired(s).repair;
            OnePerKey(r) && forall u :: u in r <==> KeyOf(u) in s.desired && s.desired[KeyOf(u)] == u && !Has(s.queued, KeyOf(u))
  {
    hide Unqueued, Has, KeyLess, KeyOf;
    KeyOrder();
    var keys := Listed(s.desired);
    UnqueuedOnce(keys, s.desired, s.queued);
    forall u ensures u in Repaired(s).repair <==> KeyOf(u) in s.desired && s.desired[KeyOf(u)] == u && !Has(s.queued, KeyOf(u)) {
      UnqueuedMembers(keys, s.desired, s.queued, u);
    }
  }

  lemma HasIs(us: seq<Update>, k: Key)
    ensures Has(us, k) <==> exists u :: u in us && KeyOf(u) == k
  {
    if Has(us, k) {
      var i :| 0 <= i < |us| && KeyOf(us[i]) == k;
      assert us[i] in us;
    }
  }

  // ------------------------------------------------------------- every state

  lemma RepairSound(s: State)
    requires Sound(s)
    ensures Sound(Repaired(s))
  {
    hide Unqueued, OnePerKey, Listed, Has;
    RepairedIs(s);
    forall u, v | u in s.queued && v in Repaired(s).repair ensures KeyOf(u) != KeyOf(v) { HasIs(s.queued, KeyOf(v)); }
    forall u | u in Repaired(s).repair ensures ValidTopic(u.topic) { assert KeyOf(u).topic == u.topic; }
  }

  lemma ReplaceSound(s: State, workspace: Id32, revision: u64)
    requires Sound(s)
    ensures Sound(Replaced(s, workspace, revision))
  {
    hide Surviving, OnePerKey, ValidTopic, Stays;
    SurvivingOnce(s.queued, workspace, revision);
    SurvivingOnce(s.repair, workspace, revision);
    var kept := Replaced(s, workspace, revision).desired;
    assert s.desired.Keys == kept.Keys + (s.desired.Keys - kept.Keys);
  }

  lemma SettleSound(s: State, finished: Option<Outcome>)
    requires Sound(s)
    ensures Sound(Settled(s, finished))
  {
    hide OnePerKey, ValidTopic, Disjoint;
    assert Settled(s, finished).desired.Keys <= s.desired.Keys;
  }

  lemma DispatchSound(s: State, prepared: bool)
    requires Sound(s)
    ensures Sound(Dispatched(s, prepared))
    ensures forall u :: Front(s) == Some(u) ==> ValidTopic(u.topic) && (KeyOf(u) in s.desired ==> s.desired[KeyOf(u)] == u)
  {
    hide OnePerKey, ValidTopic, Labelled;
    if s.queued != [] { FrontApart(s.queued); assert s.queued[0] in s.queued; }
    else if s.repair != [] { FrontApart(s.repair); assert s.repair[0] in s.repair; }
  }

  lemma WantedLabelled(desired: map<Key, Update>, u: Update)
    requires Labelled(desired) && ValidTopic(u.topic)
    ensures Labelled(desired[KeyOf(u) := u]) && |desired[KeyOf(u) := u]| <= |desired| + (if KeyOf(u) in desired then 0 else 1)
  {
    hide ValidTopic;
    assert desired[KeyOf(u) := u].Keys == desired.Keys + {KeyOf(u)};
  }

  lemma WantedSound(s: State, u: Update)
    requires Sound(s) && ValidTopic(u.topic) && (KeyOf(u) in s.desired || |s.desired| < MAX_INTERESTS)
    ensures var w := Wanted(s, u);
            && OnePerKey(w.queued) && OnePerKey(w.repair) && Disjoint(w.queued, w.repair)
            && Agree(Without(w.queued, KeyOf(u)), w.desired) && Agree(w.repair, w.desired) && Labelled(w.desired)
            && |w.queued| <= MAX_INTERESTS && |w.desired| <= MAX_INTERESTS
            && forall v :: v in w.repair ==> KeyOf(v) != KeyOf(u)
  {
    hide Without, OnePerKey, ValidTopic, Labelled;
    FilteredOnce(s.repair, Without(s.repair, KeyOf(u)), KeyOf(u));
    WantedLabelled(s.desired, u);
  }

  /** Replacing the entry of a key where it stands, or adding it at the end. */
  lemma PlacedOnce(us: seq<Update>, u: Update)
    requires OnePerKey(us)
    ensures var at := Position(us, KeyOf(u));
            var r := if at.Some? then us[at.value := u] else us + [u];
            OnePerKey(r) && forall v :: v in r <==> v == u || (v in us && KeyOf(v) != KeyOf(u))
  {
    hide Position;
    var at := Position(us, KeyOf(u));
    var r := if at.Some? then us[at.value := u] else us + [u];
    forall v ensures v in r <==> v == u || (v in us && KeyOf(v) != KeyOf(u)) {
      if v in us && KeyOf(v) != KeyOf(u) {
        var i :| 0 <= i < |us| && us[i] == v;
        assert r[i] == v;
      }
      if at.Some? { assert r[at.value] == u; } else { assert r[|us|] == u; }
    }
  }

  lemma SetSound(s: State, u: Update, prepared: bool)
    requires Sound(s) && TrySet(s, u, prepared).Some?
    ensures Sound(TrySet(s, u, prepared).value)
  {
    hide Without, OnePerKey, ValidTopic, Position, Labelled, KeyOf;
    WantedSound(s, u);
    PlacedOnce(s.queued, u);
  }

  /** Every operation, accepted or refused, keeps the lists in order. */
  lemma NextSound(s: State, e: Event)
    requires Sound(s)
    ensures Sound(Next(s, e))
  {
    hide Sound, TrySet, Repaired, Replaced, Settled, Dispatched;
    match e
    case Set(u, prepared) => if TrySet(s, u, prepared).Some? { SetSound(s, u, prepared); }
    case Repair => RepairSound(s);
    case ReplaceRevision(workspace, revision) => ReplaceSound(s, workspace, revision);
    case Poll(due, finished, prepared) =>
      RetrySound(s, due);
      SettleSound(Retried(s, due), finished);
      DispatchSound(Settled(Retried(s, due), finished), prepared);
    case Cancel => EmptySound();
  }

  lemma EmptySound()
    ensures Sound(EMPTY)
  {
  }

  lemma RetrySound(s: State, due: bool)
    requires Sound(s)
    ensures Sound(Retried(s, due))
  {
    hide Repaired, OnePerKey, Disjoint, Agree, Labelled;
    if IsIdle(s) && s.retry && due { RepairSound(s.(retry := false)); }
  }

  lemma {:induction false} RunSound(events: seq<Event>)
    ensures Sound(Run(events).state)
  {
    hide Sound, Next, InFlight, Confirmed;
    if events == [] { EmptySound(); } else {
      RunSound(events[..|events| - 1]);
      NextSound(Run(events[..|events| - 1]).state, events[|events| - 1]);
    }
  }

  // --------------------------------------------------- each operation, exactly

  /** Both speak of one topic of one workspace. */
  predicate SameInterest(u: Update, v: Update) { u.workspace == v.workspace && u.topic == v.topic }

  /** `r` is what is left of `us`, from place `k` on, without the updates of the
      workspace at another revision: `at` lists, in order, exactly the places that
      stay. */
  ghost predicate Left(us: seq<Update>, k: nat, r: seq<Update>, workspace: Id32, revision: u64, at: seq<nat>) {
    && |at| == |r|
    && (forall i, j :: 0 <= i < j < |at| ==> at[i] < at[j])
    && (forall i :: 0 <= i < |at| ==> k <= at[i] < |us| && r[i] == us[at[i]])
    && (forall j :: k <= j < |us| ==> (j in at <==> Stays(us[j], workspace, revision)))
  }

  lemma {:induction false} SurvivingLeft(us: seq<Update>, k: nat, workspace: Id32, revision: u64) returns (at: seq<nat>)
    requires k <= |us|
    ensures Left(us, k, Surviving(us[k..], workspace, revision), workspace, revision, at)
    decreases |us| - k
  {
    if k == |us| { at := []; } else {
      assert us[k..][0] == us[k] && us[k..][1..] == us[k + 1..];
      var behind := SurvivingLeft(us, k + 1, workspace, revision);
      hide Left;
      at := LeftMore(us, k, Surviving(us[k + 1..], workspace, revision), workspace, revision, behind);
    }
  }

  lemma LeftMore(us: seq<Update>, k: nat, r: seq<Update>, workspace: Id32, revision: u64, behind: seq<nat>) returns (at: seq<nat>)
    requires k < |us| && Left(us, k + 1, r, workspace, revision, behind)
    ensures Left(us, k, (if Stays(us[k], workspace, revision) then [us[k]] else []) + r, workspace, revision, at)
  {
    at := (if Stays(us[k], workspace, revision) then [k] else []) + behind;
    hide Stays;
  }

  /** A new revision of a workspace leaves exactly the updates of other workspaces
      and of that revision: queued, in repair, desired and in flight; both lists
      keep their order. */
  lemma ReplacedExactly(s: State, workspace: Id32, revision: u64) returns (queuedAt: seq<nat>, repairAt: seq<nat>)
    requires Sound(s)
    ensures var next := Replaced(s, workspace, revision);
            && Left(s.queued, 0, next.queued, workspace, revision, queuedAt) && Left(s.repair, 0, next.repair, workspace, revision, repairAt)
            && next.retry == s.retry
            && (forall u :: next.pending == Some(u) <==> s.pending == Some(u) && Stays(u, workspace, revision))
            && (forall u :: u in next.desired.Values <==> u in s.desired.Values && Stays(u, workspace, revision))
  {
    hide Surviving, Left, OnePerKey, Disjoint, Agree, Bounded, ValidTopic;
    queuedAt := SurvivingLeft(s.queued, 0, workspace, revision);
    repairAt := SurvivingLeft(s.repair, 0, workspace, revision);
    assert s.queued[0..] == s.queued && s.repair[0..] == s.repair;
    var next := Replaced(s, workspace, revision);
    forall u ensures u in next.desired.Values <==> u in s.desired.Values && Stays(u, workspace, revision) {
      if u in s.desired.Values {
        var k :| k in s.desired && s.desired[k] == u;
        assert k.workspace == u.workspace;
        if Stays(u, workspace, revision) { assert k in next.desired && next.desired[k] == u; }
      }
    }
  }

  /** The update is in flight, queued, in repair or desired. */
  predicate Held(s: State, u: Update) { s.pending == Some(u) || u in s.queued || u in s.repair || u in s.desired.Values }

  predicate Asks(e: Event, u: Update) { e.Set? && e.update == u }

  lemma DesiredAt(s: State, k: Key)
    requires k in s.desired
    ensures Held(s, s.desired[k])
  {
  }

  lemma RepairNew(s: State, u: Update)
    requires Labelled(s.desired) && Held(Repaired(s), u)
    ensures Held(s, u)
  {
    hide Unqueued, Listed, Has, ValidTopic;
    RepairedIs(s);
    if u in Repaired(s).repair { DesiredAt(s, KeyOf(u)); }
  }

  lemma SetNew(s: State, v: Update, prepared: bool, u: Update)
    requires TrySet(s, v, prepared).Some? && u != v && Held(TrySet(s, v, prepared).value, u)
    ensures Held(s, u)
  {
    hide Position, Without, ValidTopic;
    var next := TrySet(s, v, prepared).value;
    if u in next.desired.Values {
      var k :| k in next.desired && next.desired[k] == u;
      DesiredAt(s, k);
    }
  }

  lemma ReplaceNew(s: State, workspace: Id32, revision: u64, u: Update)
    requires Held(Replaced(s, workspace, revision), u)
    ensures Held(s, u)
  {
    hide Surviving, Stays;
  }

  lemma PollNew(s: State, due: bool, finished: Option<Outcome>, prepared: bool, u: Update)
    requires Labelled(s.desired)
    requires Held(Polled(s, due, finished, prepared), u) || Front(Settled(Retried(s, due), finished)) == Some(u)
    ensures Held(s, u)
  {
    hide Repaired;
    var r := Retried(s, due);
    assert Held(r, u);
    if r != s {
      RepairNew(s.(retry := false), u);
    }
  }

  /** Only `set` with an update brings that update in. */
  lemma NothingNew(s: State, e: Event, u: Update)
    requires Labelled(s.desired) && !Asks(e, u) && (Held(Next(s, e), u) || InFlight(s, e) == Some(u))
    ensures Held(s, u)
  {
    hide TrySet, Repaired, Replaced, Polled, Front, Settled, Retried, Labelled, Held;
    match e
    case Set(v, prepared) => if TrySet(s, v, prepared).Some? { SetNew(s, v, prepared, u); }
    case Repair => RepairNew(s, u);
    case ReplaceRevision(workspace, revision) => ReplaceNew(s, workspace, revision, u);
    case Poll(due, finished, prepared) => PollNew(s, due, finished, prepared, u);
    case Cancel => NothingHeld(u);
  }

  lemma NothingHeld(u: Update)
    ensures !Held(EMPTY, u)
  {
  }

  lemma {:induction false} StaysOut(events: seq<Event>, i: nat, j: nat, u: Update)
    requires i <= j <= |events| && !Held(Run(events[..i]).state, u)
    requires forall n :: i <= n < j ==> !Asks(events[n], u)
    ensures !Held(Run(events[..j]).state, u)
    decreases j
  {
    hide Run, Next, Held, InFlight, Asks, Confirmed;
    if i < j {
      StaysOut(events, i, j - 1, u);
      RunNext(events, j - 1);
      RunSound(events[..j - 1]);
      SoundQueued(Run(events[..j - 1]).state);
      if Held(Run(events[..j]).state, u) { NothingNew(Run(events[..j - 1]).state, events[j - 1], u); }
    }
  }

  lemma RunNext(events: seq<Event>, n: nat)
    requires n < |events|
    ensures Run(events[..n + 1]) == Step(Run(events[..n]), events[n])
  {
    hide Step;
    assert events[..n + 1][..n] == events[..n];
  }

  /** A replaced revision stays replaced: from then on, until `set` asks for it
      again, no update of that workspace at another revision is in flight, queued,
      in repair or desired, and no event puts it in flight. */
  lemma ReplacedStaysOut(events: seq<Event>, i: nat, j: nat, u: Update)
    requires i < j <= |events| && events[i].ReplaceRevision? && u.workspace == events[i].workspace && u.revision != events[i].revision
    requires forall n :: i < n < j ==> !Asks(events[n], u)
    ensures !Held(Run(events[..j]).state, u)
    ensures j < |events| && !Asks(events[j], u) ==> InFlight(Run(events[..j]).state, events[j]) != Some(u)
  {
    hide Run, InFlight, Asks, Confirmed, Replaced;
    RunNext(events, i);
    RunSound(events[..i]);
    ReplacedOut(Run(events[..i]).state, events[i].workspace, events[i].revision, u);
    StaysOut(events, i + 1, j, u);
    if j < |events| && !Asks(events[j], u) && InFlight(Run(events[..j]).state, events[j]) == Some(u) {
      RunSound(events[..j]);
      SoundQueued(Run(events[..j]).state);
      NothingNew(Run(events[..j]).state, events[j], u);
    }
  }

  lemma ReplacedOut(s: State, workspace: Id32, revision: u64, u: Update)
    requires Sound(s) && u.workspace == workspace && u.revision != revision
    ensures !Held(Replaced(s, workspace, revision), u)
  {
    var queuedAt, repairAt := ReplacedExactly(s, workspace, revision);
    hide Surviving, Sound;
  }

  /** `set` is accepted exactly for a valid topic the node prepared, when the queue
      and the interests each have room or already hold the topic. */
  lemma SetExactly(s: State, u: Update, prepared: bool)
    requires Sound(s)
    ensures TrySet(s, u, prepared).Some? <==>
              && ValidTopic(u.topic) && prepared
              && (|s.queued| < MAX_INTERESTS || exists v :: v in s.queued && SameInterest(v, u))
              && (|s.desired| < MAX_INTERESTS || exists v :: v in s.desired.Values && SameInterest(v, u))
  {
    hide Position, Without, ValidTopic, OnePerKey, Disjoint, Agree, IsIdle, Enqueued, Wanted;
    PositionIsHas(s.queued, KeyOf(u));
    HasIs(s.queued, KeyOf(u));
    hide Has;
    if KeyOf(u) in s.desired { assert s.desired[KeyOf(u)] in s.desired.Values && SameInterest(s.desired[KeyOf(u)], u); }
    forall v | v in s.desired.Values && SameInterest(v, u) ensures KeyOf(u) in s.desired {
      var k :| k in s.desired && s.desired[k] == v;
      assert KeyOf(v) == k;
    }
  }

  /** An accepted update is the one desired for its topic and leaves repair. If
      nothing else is in flight, queued or in repair it is put in flight; otherwise
      it takes the place of the entry of its topic, or the last place. */
  lemma SetPlaces(s: State, u: Update, prepared: bool)
    requires Sound(s) && TrySet(s, u, prepared).Some?
    ensures var next := TrySet(s, u, prepared).value;
            && (forall v :: v in next.desired.Values <==> v == u || (v in s.desired.Values && !SameInterest(v, u)))
            && (forall v :: v in next.repair <==> v in s.repair && !SameInterest(v, u))
            && next.retry == s.retry
            && (if s.pending.None? && s.queued == [] && forall v :: v in s.repair ==> SameInterest(v, u)
                then next.pending == Some(u) && next.queued == []
                else next.pending == s.pending && PutAt(s.queued, u, next.queued))
  {
    hide Position, Without, ValidTopic, OnePerKey, Disjoint, Agree, Labelled, Bounded, PutAt;
    PutInPlace(s.queued, u);
    DesiredInPlace(s.desired, u);
    assert forall v :: KeyOf(v) == KeyOf(u) <==> SameInterest(v, u);
    var w := Without(s.repair, KeyOf(u));
    if w != [] { assert w[0] in w; }
    if s.repair != [] { assert s.repair[0] in s.repair; }
  }

  /** `u` in the place of the entry of its topic, or else at the end. */
  predicate PutAt(us: seq<Update>, u: Update, r: seq<Update>) {
    if exists v :: v in us && SameInterest(v, u)
    then |r| == |us| && forall i :: 0 <= i < |us| ==> r[i] == if SameInterest(us[i], u) then u else us[i]
    else r == us + [u]
  }

  lemma PutInPlace(us: seq<Update>, u: Update)
    requires OnePerKey(us)
    ensures var at := Position(us, KeyOf(u)); PutAt(us, u, if at.Some? then us[at.value := u] else us + [u])
  {
    hide Position;
    var at := Position(us, KeyOf(u));
    if at.Some? { assert us[at.value] in us && SameInterest(us[at.value], u); }
    forall v | v in us && SameInterest(v, u) ensures at.Some? { var i :| 0 <= i < |us| && us[i] == v; }
  }

  lemma DesiredInPlace(desired: map<Key, Update>, u: Update)
    requires Labelled(desired)
    ensures forall v :: v in desired[KeyOf(u) := u].Values <==> v == u || (v in desired.Values && !SameInterest(v, u))
  {
    hide ValidTopic;
    var next := desired[KeyOf(u) := u];
    assert KeyOf(u) in next;
    forall v ensures v in next.Values <==> v == u || (v in desired.Values && !SameInterest(v, u)) {
      if v in desired.Values && !SameInterest(v, u) {
        var k :| k in desired && desired[k] == v;
        assert k != KeyOf(u) && next[k] == v;
      }
      if v in next.Values && v != u {
        var k :| k in next && next[k] == v;
        assert k in desired && KeyOf(desired[k]) == k;
      }
    }
  }

  /** The clean end of a withdrawal ends an equal wish: same topic, also not
      subscribed, same revision. */
  predicate Ends(s: State, finished: Option<Outcome>, v: Update) {
    && s.pending.Some? && finished == Some(Reached(false)) && !s.pending.value.subscribed
    && !v.subscribed && SameInterest(v, s.pending.value) && v.revision == s.pending.value.revision
  }

  /** While an announcement is in flight and not finished, a poll changes nothing.
      Otherwise it takes the first queued update or, with none queued, the first in
      repair, and puts it in flight if the node prepares it; only an idle announcer
      with a due retry first takes up everything desired. A retry is armed by every
      end but a clean one; and an interest is forgotten exactly when its
      withdrawal ends cleanly. */
  lemma PollExactly(s: State, due: bool, finished: Option<Outcome>, prepared: bool)
    requires Sound(s)
    ensures var next := Polled(s, due, finished, prepared);
            var flying := InFlight(s, Poll(due, finished, prepared));
            var again := IsIdle(s) && s.retry && due;
            && (s.pending.Some? && finished.None? ==> next == s && flying.None?)
            && (s.pending.None? || finished.Some? ==>
                  && next.pending == flying
                  && (s.queued != [] ==> next.queued == s.queued[1..] && next.repair == s.repair && flying == if prepared then Some(s.queued[0]) else None)
                  && (s.queued == [] ==> next.queued == [])
                  && (s.queued == [] && s.repair != [] ==> next.repair == s.repair[1..] && flying == if prepared then Some(s.repair[0]) else None)
                  && (s.queued == [] && s.repair == [] && !again ==> next.repair == [] && flying.None?)
                  && (again ==> TakesUp(s, next, flying, prepared))
                  && (next.retry <==> !again && (s.retry || (s.pending.Some? && finished != Some(Reached(false)))))
                  && (forall v :: v in next.desired.Values <==> v in s.desired.Values && !Ends(s, finished, v)))
  {
    hide Repaired, OnePerKey, Disjoint, Agree, Bounded, TakesUp, Ends, ValidTopic;
    EndsExactly(s, finished);
    RepairOnly(s.(retry := false));
    if IsIdle(s) && s.retry && due { TakenUp(s, prepared); }
  }

  /** The list holds everything desired, each topic once. */
  ghost predicate Lists(r: seq<Update>, desired: map<Key, Update>) { OnePerKey(r) && forall v :: v in r <==> v in desired.Values }

  /** A retry: everything desired is in repair or just taken from it. */
  ghost predicate TakesUp(s: State, next: State, flying: Option<Update>, prepared: bool) {
    exists r :: Lists(r, s.desired)
      && next.repair == (if r == [] then [] else r[1..]) && flying == if prepared && r != [] then Some(r[0]) else None
  }

  lemma TakenUp(s: State, prepared: bool)
    requires Sound(s) && IsIdle(s)
    ensures var r := Repaired(s.(retry := false));
            TakesUp(s, Dispatched(r, prepared), if prepared then Front(r) else None, prepared)
  {
    hide Unqueued, Listed, Has, ValidTopic;
    var quiet := s.(retry := false);
    var r := Repaired(quiet).repair;
    RepairedIs(quiet);
    forall v ensures v in r <==> v in s.desired.Values {
      HasIs(s.queued, KeyOf(v));
      if v in s.desired.Values { var k :| k in s.desired && s.desired[k] == v; }
    }
    assert Lists(r, s.desired);
  }

  lemma EndsExactly(s: State, finished: Option<Outcome>)
    requires Labelled(s.desired)
    ensures forall v :: v in Settled(s, finished).desired.Values <==> v in s.desired.Values && !Ends(s, finished, v)
  {
    hide ValidTopic;
    var next := Settled(s, finished).desired;
    forall v ensures v in next.Values <==> v in s.desired.Values && !Ends(s, finished, v) {
      if v in s.desired.Values {
        var k :| k in s.desired && s.desired[k] == v;
        assert KeyOf(v) == k;
        if !Ends(s, finished, v) { assert k in next && next[k] == v; }
      }
    }
  }

  // ------------------------------------------------------ nothing stale flies

  /** What is desired is what was asked for last. */
  predicate Latest(t: Trace) { forall k :: k in t.state.desired ==> k in t.latest && t.latest[k] == t.state.desired[k] }

  /** No operation but `set` makes anything desired. */
  lemma DesiredShrinks(s: State, e: Event)
    requires !e.Set?
    ensures forall k :: k in Next(s, e).desired ==> k in s.desired && s.desired[k] == Next(s, e).desired[k]
  {
    hide Unqueued, Surviving, Listed;
  }

  lemma StepLatest(t: Trace, e: Event)
    requires Latest(t)
    ensures Latest(Step(t, e))
  {
    hide Confirmed, InFlight, Next, KeyOf;
    if e.Set? { SetDesires(t.state, e.update, e.prepared); } else { DesiredShrinks(t.state, e); }
  }

  lemma SetDesires(s: State, u: Update, prepared: bool)
    ensures Next(s, Set(u, prepared)).desired == if TrySet(s, u, prepared).Some? then s.desired[KeyOf(u) := u] else s.desired
  {
    hide Position, Without, KeyOf, ValidTopic;
  }

  lemma NothingLatest()
    ensures Latest(START)
  {
  }

  lemma {:induction false} RunLatest(events: seq<Event>)
    ensures Latest(Run(events))
  {
    hide Step, Latest;
    if events == [] {
      assert Latest(START) by { NothingLatest(); }
    } else {
      RunLatest(events[..|events| - 1]);
      StepLatest(Run(events[..|events| - 1]), events[|events| - 1]);
    }
  }

  /** No stale announcement: over any run, refusals and cancellations included,
      whatever is put in flight has a valid topic and, if its key is still
      desired, is exactly the update asked for last. */
  lemma NothingStaleFlies(events: seq<Event>, e: Event, u: Update)
    requires InFlight(Run(events).state, e) == Some(u)
    ensures var next := Step(Run(events), e);
            ValidTopic(u.topic) && (KeyOf(u) in next.state.desired ==> next.state.desired[KeyOf(u)] == u && KeyOf(u) in next.latest && next.latest[KeyOf(u)] == u)
  {
    hide Sound, Retried, Settled, Position, Without, Confirmed;
    var t := Run(events);
    RunSound(events);
    RunLatest(events + [e]);
    assert (events + [e])[..|events|] == events;
    if e.Poll? {
      RetrySound(t.state, e.due);
      SettleSound(Retried(t.state, e.due), e.finished);
      DispatchSound(Settled(Retried(t.state, e.due), e.finished), e.prepared);
    }
  }

  /** At most one queued entry per key, and none of them is also in repair. */
  lemma QueuesApart(events: seq<Event>, i: nat, j: nat)
    requires i < |Run(events).state.queued|
    ensures var s := Run(events).state;
            && (j < |s.queued| && KeyOf(s.queued[i]) == KeyOf(s.queued[j]) ==> i == j)
            && (j < |s.repair| ==> KeyOf(s.queued[i]) != KeyOf(s.repair[j]))
  {
    hide Run;
    RunSound(events);
    var s := Run(events).state;
    assert s.queued[i] in s.queued;
    if j < |s.repair| { assert s.repair[j] in s.repair; }
  }

  // --------------------------------------------------- nothing is forgotten

  predicate SentOrQueued(t: Trace, k: Key) {
    k in t.state.desired ==> (k in t.sent && t.sent[k] == t.state.desired[k]) || Has(t.state.queued, k)
  }

  /** The key is confirmed as desired, or something will still announce it. */
  predicate Assured(t: Trace, k: Key) {
    k in t.state.desired ==>
      || (k in t.confirmed && t.confirmed[k] == t.state.desired[k]) || t.state.pending == Some(t.state.desired[k])
      || Has(t.state.queued, k) || Has(t.state.repair, k) || t.state.retry
  }

  /** What is in flight is what was sent last under its key. */
  predicate Flying(t: Trace) {
    t.state.pending.Some? ==> KeyOf(t.state.pending.value) in t.sent && t.sent[KeyOf(t.state.pending.value)] == t.state.pending.value
  }

  ghost predicate Kept(t: Trace) { Flying(t) && forall k :: SentOrQueued(t, k) && Assured(t, k) }

  lemma SetKeeps(t: Trace, e: Event, k: Key)
    requires Sound(t.state) && Flying(t) && SentOrQueued(t, k) && Assured(t, k) && e.Set?
    ensures Flying(Step(t, e)) && SentOrQueued(Step(t, e), k) && Assured(Step(t, e), k)
  {
    hide ValidTopic, Position, Without, Sound, Has, KeyOf, Enqueued;
    if TrySet(t.state, e.update, e.prepared).Some? {
      SoundQueued(t.state);
      var w := Wanted(t.state, e.update);
      EnqueuedHas(w, e.update, k);
      WithoutHas(t.state.repair, KeyOf(e.update), k);
    }
  }

  lemma WithoutHas(us: seq<Update>, gone: Key, k: Key)
    ensures Has(Without(us, gone), k) <==> Has(us, k) && k != gone
  {
    hide Without, Has, KeyOf;
    HasIs(us, k);
    HasIs(Without(us, gone), k);
  }

  /** An update is put in flight when all was idle, else it is queued. */
  lemma EnqueuedHas(s: State, u: Update, k: Key)
    requires OnePerKey(s.queued)
    ensures var next := Enqueued(s, u);
            && next == s.(pending := next.pending, queued := next.queued)
            && (if IsIdle(s) then next.pending == Some(u) && next.queued == s.queued
                else next.pending == s.pending && (Has(next.queued, k) <==> Has(s.queued, k) || k == KeyOf(u)))
  {
    hide Position, OnePerKey, Has, KeyOf;
    PlacedOnce(s.queued, u);
    HasIs(s.queued, k);
    HasIs(Enqueued(s, u).queued, k);
  }

  lemma SoundQueued(s: State)
    requires Sound(s)
    ensures OnePerKey(s.queued) && OnePerKey(s.repair) && Labelled(s.desired) && Agree(s.queued, s.desired) && Agree(s.repair, s.desired)
  {
  }

  lemma RepairKeeps(t: Trace, k: Key)
    requires Sound(t.state) && SentOrQueued(t, k)
    ensures var next := Trace(Repaired(t.state), t.latest, t.sent, map[]); SentOrQueued(next, k) && Assured(next, k)
  {
    hide OnePerKey, ValidTopic, Unqueued, Listed, Has, Sound;
    SoundQueued(t.state);
    RepairedIs(t.state);
    HasIs(Repaired(t.state).repair, k);
  }

  lemma ReplaceKeeps(t: Trace, e: Event, k: Key)
    requires Sound(t.state) && Flying(t) && SentOrQueued(t, k) && Assured(t, k) && e.ReplaceRevision?
    ensures Flying(Step(t, e)) && SentOrQueued(Step(t, e), k) && Assured(Step(t, e), k)
  {
    hide OnePerKey, ValidTopic, Surviving, Has, Sound;
    SoundQueued(t.state);
    var next := Step(t, e);
    HasIs(t.state.queued, k);
    HasIs(next.state.queued, k);
    HasIs(t.state.repair, k);
    HasIs(next.state.repair, k);
  }

  /** The trace just before a poll dispatches. */
  function BeforeDispatch(t: Trace, e: Event): Trace
    requires e.Poll?
  {
    Trace(Settled(Retried(t.state, e.due), e.finished), t.latest, t.sent, Confirmed(t, e))
  }

  lemma RetryKeeps(t: Trace, due: bool, k: Key)
    requires Sound(t.state) && Flying(t) && SentOrQueued(t, k) && Assured(t, k)
    ensures var next := Trace(Retried(t.state, due), t.latest, t.sent, if Retried(t.state, due) == t.state then t.confirmed else map[]);
            Flying(next) && SentOrQueued(next, k) && Assured(next, k)
  {
    hide Sound, Has, Repaired;
    if IsIdle(t.state) && t.state.retry && due {
      var s := t.state.(retry := false);
      SoundRetry(t.state);
      RepairKeeps(t.(state := s), k);
      RepairOnly(s);
    }
  }

  lemma SoundRetry(s: State)
    requires Sound(s)
    ensures Sound(s.(retry := false))
  {
  }

  lemma SettleKeeps(t: Trace, finished: Option<Outcome>, k: Key)
    requires Sound(t.state) && Flying(t) && SentOrQueued(t, k) && Assured(t, k)
    ensures var clean := t.state.pending.Some? && finished.Some? && Clean(finished.value);
            var next := Trace(Settled(t.state, finished), t.latest, t.sent,
                              if clean then t.confirmed[KeyOf(t.state.pending.value) := t.state.pending.value] else t.confirmed);
            Flying(next) && SentOrQueued(next, k) && Assured(next, k)
  {
    hide OnePerKey, ValidTopic, Has, Sound;
    SoundQueued(t.state);
  }

  lemma DispatchKeeps(t: Trace, k: Key)
    requires Sound(t.state) && Flying(t) && SentOrQueued(t, k) && Assured(t, k)
    ensures var u := Front(t.state);
            var next := Trace(Dispatched(t.state, true), t.latest, if u.Some? then t.sent[KeyOf(u.value) := u.value] else t.sent,
                              if u.Some? then t.confirmed - {KeyOf(u.value)} else t.confirmed);
            Flying(next) && SentOrQueued(next, k) && Assured(next, k)
  {
    hide OnePerKey, ValidTopic, Has, Sound;
    SoundQueued(t.state);
    DispatchSound(t.state, true);
    if Front(t.state).Some? { PoppedHas(t.state, k); }
  }

  /** Taking the front entry away takes only its own key. */
  lemma PoppedHas(s: State, k: Key)
    requires OnePerKey(s.queued) && OnePerKey(s.repair) && Front(s).Some?
    ensures var u := Front(s).value;
            && (Has(Dequeued(s).queued, k) <==> Has(s.queued, k) && (s.queued == [] || KeyOf(u) != k))
            && (Has(Dequeued(s).repair, k) <==> Has(s.repair, k) && (s.queued != [] || KeyOf(u) != k))
  {
    hide Has;
    if s.queued != [] { TailHas(s.queued, k); } else { TailHas(s.repair, k); HasIs(s.queued, k); }
  }

  lemma TailHas(us: seq<Update>, k: Key)
    requires OnePerKey(us) && us != []
    ensures Has(us[1..], k) <==> Has(us, k) && KeyOf(us[0]) != k
  {
    FrontApart(us);
    if Has(us, k) && KeyOf(us[0]) != k {
      var i :| 0 <= i < |us| && KeyOf(us[i]) == k;
      assert us[1..][i - 1] == us[i];
    }
    if Has(us[1..], k) {
      var i :| 0 <= i < |us[1..]| && KeyOf(us[1..][i]) == k;
      assert us[i + 1] == us[1..][i];
    }
  }

  lemma PollKeeps(t: Trace, e: Event, k: Key)
    requires Sound(t.state) && Flying(t) && SentOrQueued(t, k) && Assured(t, k) && e.Poll?
    ensures var mid := BeforeDispatch(t, e); Sound(mid.state) && Flying(mid) && SentOrQueued(mid, k) && Assured(mid, k)
  {
    hide Sound, SentOrQueued, Assured, Retried, Settled, Clean;
    RetryKeeps(t, e.due, k);
    RetrySound(t.state, e.due);
    var r := Trace(Retried(t.state, e.due), t.latest, t.sent, if Retried(t.state, e.due) == t.state then t.confirmed else map[]);
    SettleSound(r.state, e.finished);
    SettleKeeps(r, e.finished, k);
    RetryPending(t.state, e.due);
  }

  lemma RetryPending(s: State, due: bool)
    ensures Retried(s, due).pending == s.pending
  {
    hide Unqueued, Listed;
  }

  /** Unless the node refuses a waiting update, every operation keeps each desired
      key announced last as desired or queued, and every desired key confirmed or
      still to be announced. */
  lemma StepKeeps(t: Trace, e: Event)
    requires Sound(t.state) && Kept(t) && !Refuses(t.state, e)
    ensures Kept(Step(t, e))
  {
    hide Step, Flying, SentOrQueued, Assured, Sound, Refuses;
    StepKeepsKey(t, e, Key(seq(32, _ => 0), []));
    forall k ensures Flying(Step(t, e)) && SentOrQueued(Step(t, e), k) && Assured(Step(t, e), k) { StepKeepsKey(t, e, k); }
  }

  lemma StepKeepsKey(t: Trace, e: Event, k: Key)
    requires Sound(t.state) && Flying(t) && SentOrQueued(t, k) && Assured(t, k) && !Refuses(t.state, e)
    ensures Flying(Step(t, e)) && SentOrQueued(Step(t, e), k) && Assured(Step(t, e), k)
  {
    hide Sound, SentOrQueued, Assured, Repaired, Retried, Settled;
    match e
    case Set(_, _) => SetKeeps(t, e, k);
    case Repair => RepairKeeps(t, k); RepairOnly(t.state);
    case ReplaceRevision(_, _) => ReplaceKeeps(t, e, k);
    case Poll(_, _, prepared) =>
      PollKeeps(t, e, k);
      DispatchKeeps(BeforeDispatch(t, e), k);
    case Cancel => NothingDesired(Step(t, e), k);
  }

  lemma RepairOnly(s: State)
    ensures Repaired(s) == s.(repair := Repaired(s).repair)
  {
  }

  lemma NothingDesired(t: Trace, k: Key)
    requires t.state == EMPTY
    ensures SentOrQueued(t, k) && Assured(t, k)
  {
  }

  ghost predicate NeverRefused(events: seq<Event>) {
    forall n :: 0 <= n < |events| ==> !Refuses(Run(events[..n]).state, events[n])
  }

  /** Nothing is forgotten: over any run in which the node never refuses a waiting
      update, every desired key was announced last exactly as desired or is
      queued; and it is confirmed by all peers, in flight, queued, in repair, or
      a retry is due. */
  lemma {:induction false} NothingForgotten(events: seq<Event>)
    requires NeverRefused(events)
    ensures Kept(Run(events))
    decreases |events|
  {
    hide Sound, Next, Kept, Refuses, Step;
    if events == [] { StartKept(); } else {
      var front := events[..|events| - 1];
      forall n | 0 <= n < |front| ensures !Refuses(Run(front[..n]).state, front[n]) { assert front[..n] == events[..n]; }
      NothingForgotten(front);
      RunSound(front);
      StepKeeps(Run(front), events[|events| - 1]);
    }
  }

  lemma StartKept()
    ensures Kept(START)
  {
  }

  /** So an announcer at rest with no retry due has every desired interest
      confirmed. */
  lemma RestMeansConfirmed(events: seq<Event>, k: Key)
    requires NeverRefused(events) && IsIdle(Run(events).state) && !Run(events).state.retry && k in Run(events).state.desired
    ensures var t := Run(events); k in t.confirmed && t.confirmed[k] == t.state.desired[k]
  {
    hide Run;
    NothingForgotten(events);
    assert Assured(Run(events), k);
  }

  /** What a poll has before it, once it has retried and observed. */
  function BeforeFront(s: State, e: Event): State
    requires e.Poll?
  {
    Settled(Retried(s, e.due), e.finished)
  }

  /** The update a refusal drops is no longer wanted, or was announced last. */
  predicate DroppedWasSent(t: Trace, e: Event)
    requires Refuses(t.state, e)
  {
    var k := KeyOf(Offered(t.state, e).value);
    k in BeforeFront(t.state, e).desired ==> k in t.sent && t.sent[k] == Offered(t.state, e).value
  }

  /** It is no longer wanted, or all peers have confirmed it, or a retry is due. */
  predicate DroppedIsAssured(t: Trace, e: Event)
    requires Refuses(t.state, e)
  {
    var k := KeyOf(Offered(t.state, e).value);
    k in BeforeFront(t.state, e).desired ==>
      (k in Confirmed(t, e) && Confirmed(t, e)[k] == Offered(t.state, e).value) || BeforeFront(t.state, e).retry
  }

  /** A refusal, exactly: every desired key stays sent or queued if and only if the
      dropped update was announced last or is not wanted; and every desired key
      stays assured if and only if it is confirmed, unwanted, or a retry is due. */
  lemma RefusalLoses(t: Trace, e: Event)
    requires Sound(t.state) && Kept(t) && Refuses(t.state, e)
    ensures (forall k :: SentOrQueued(Step(t, e), k)) <==> DroppedWasSent(t, e)
    ensures (forall k :: Assured(Step(t, e), k)) <==> DroppedIsAssured(t, e)
    ensures Flying(Step(t, e))
  {
    hide Sound, Has, SentOrQueued, Assured, Retried, Settled, Confirmed, Step;
    var k := KeyOf(Offered(t.state, e).value);
    RefusalAt(t, e, k);
    forall j ensures j == k || (SentOrQueued(Step(t, e), j) && Assured(Step(t, e), j)) { RefusalAt(t, e, j); }
  }

  lemma RefusalAt(t: Trace, e: Event, k: Key)
    requires Sound(t.state) && Flying(t) && SentOrQueued(t, k) && Assured(t, k) && Refuses(t.state, e)
    ensures var next := Step(t, e);
            && Flying(next)
            && (if k == KeyOf(Offered(t.state, e).value)
                then (SentOrQueued(next, k) <==> DroppedWasSent(t, e)) && (Assured(next, k) <==> DroppedIsAssured(t, e))
                else SentOrQueued(next, k) && Assured(next, k))
  {
    hide Sound, Retried, Settled, Confirmed, Has, ValidTopic;
    var mid := BeforeDispatch(t, e);
    PollKeeps(t, e, k);
    SoundQueued(mid.state);
    DispatchSound(mid.state, false);
    PoppedHas(mid.state, k);
    if k == KeyOf(Front(mid.state).value) { FrontGone(mid.state); }
  }

  /** What is dispatched is in neither list afterwards. */
  lemma FrontGone(s: State)
    requires Sound(s) && Front(s).Some?
    ensures var k := KeyOf(Front(s).value); !Has(Dequeued(s).queued, k) && !Has(Dequeued(s).repair, k)
  {
    hide Has, ValidTopic;
    var k := KeyOf(Front(s).value);
    PoppedHas(s, k);
    HasIs(s.queued, k);
    HasIs(s.repair, k);
    if s.queued != [] { assert s.queued[0] in s.queued; }
  }

  /** An event that costs no promise. */
  predicate Harmless(t: Trace, e: Event) { Refuses(t.state, e) ==> DroppedWasSent(t, e) && DroppedIsAssured(t, e) }

  /** Both promises hold at every point of a run. */
  ghost predicate KeptAlong(events: seq<Event>) {
    Kept(Run(events)) && (events != [] ==> KeptAlong(events[..|events| - 1]))
  }

  /** Every event of a run costs no promise. */
  ghost predicate HarmlessAlong(events: seq<Event>) {
    events != [] ==> HarmlessAlong(events[..|events| - 1]) && Harmless(Run(events[..|events| - 1]), events[|events| - 1])
  }

  /** Over whole runs: both promises hold throughout if and only if every refusal
      was harmless. */
  lemma {:induction false} KeptThroughout(events: seq<Event>)
    ensures KeptAlong(events) <==> HarmlessAlong(events)
    decreases |events|
  {
    hide Sound, Kept, Harmless, Step;
    if events == [] {
      StartKept();
    } else {
      var front := events[..|events| - 1];
      KeptThroughout(front);
      if Kept(Run(front)) {
        RunSound(front);
        KeptStep(Run(front), events[|events| - 1]);
      }
    }
  }

  lemma KeptStep(t: Trace, e: Event)
    requires Sound(t.state) && Kept(t)
    ensures Kept(Step(t, e)) <==> Harmless(t, e)
  {
    hide Sound, Step, Flying, SentOrQueued, Assured, DroppedWasSent, DroppedIsAssured;
    if Refuses(t.state, e) { RefusalLoses(t, e); } else { StepKeeps(t, e); }
  }

  /** The promise does fail: a first interest is in flight, a second waits, the
      first is confirmed and the node refuses the second. */
  lemma RefusalExample(workspace: Id32)
    ensures var a, b := Update(workspace, 1, [97], true), Update(workspace, 1, [98], true);
            var t := Run([Set(a, true), Set(b, true), Poll(false, Some(Reached(false)), false)]);
            IsIdle(t.state) && !t.state.retry && KeyOf(b) in t.state.desired && KeyOf(b) !in t.sent
  {
    hide Step;
    var a, b := Update(workspace, 1, [97], true), Update(workspace, 1, [98], true);
    var one, two, three := Set(a, true), Set(b, true), Poll(false, Some(Reached(false)), false);
    assert [one][..0] == [] && [one, two][..1] == [one] && [one, two, three][..2] == [one, two];
    assert Run([one]) == Step(START, one);
    FirstSet(a);
    assert Run([one, two]) == Step(Run([one]), two);
    SecondSet(Run([one]), a, b);
    assert Run([one, two, three]) == Step(Run([one, two]), three);
    RefusedPoll(Run([one, two]), a, b);
  }

  lemma FirstSet(a: Update)
    requires ValidTopic(a.topic)
    ensures var t := Step(START, Set(a, true)); t.state == State(Some(a), [], map[KeyOf(a) := a], [], false) && t.sent == map[KeyOf(a) := a]
  {
  }

  lemma SecondSet(t: Trace, a: Update, b: Update)
    requires t.state == State(Some(a), [], map[KeyOf(a) := a], [], false) && ValidTopic(b.topic) && KeyOf(b) != KeyOf(a)
    ensures var next := Step(t, Set(b, true));
            next.state == State(Some(a), [b], map[KeyOf(a) := a, KeyOf(b) := b], [], false) && next.sent == t.sent
  {
    hide ValidTopic;
    assert |t.state.desired| == 1;
  }

  lemma RefusedPoll(t: Trace, a: Update, b: Update)
    requires t.state == State(Some(a), [b], map[KeyOf(a) := a, KeyOf(b) := b], [], false) && a.subscribed && KeyOf(a) != KeyOf(b)
    ensures var next := Step(t, Poll(false, Some(Reached(false)), false));
            IsIdle(next.state) && !next.state.retry && KeyOf(b) in next.state.desired && next.sent == t.sent
  {
  }

  /** And the other half fails alone: an interest is announced and confirmed, a
      repair forgets that, and the node refuses to repeat it. It was announced
      last as desired, yet no peer need have it and nothing will tell them. */
  lemma RepairRefusalExample(workspace: Id32)
    ensures var a := Update(workspace, 1, [97], true);
            var t := Run([Set(a, true), Poll(false, Some(Reached(false)), true), Repair, Poll(false, None, false)]);
            IsIdle(t.state) && SentOrQueued(t, KeyOf(a)) && !Assured(t, KeyOf(a))
  {
    hide Step, SentOrQueued, Assured, IsIdle;
    var a := Update(workspace, 1, [97], true);
    var one, two, three, four := Set(a, true), Poll(false, Some(Reached(false)), true), Repair, Poll(false, None, false);
    assert [one][..0] == [] && [one, two][..1] == [one] && [one, two, three][..2] == [one, two] && [one, two, three, four][..3] == [one, two, three];
    assert Run([one]) == Step(START, one);
    FirstSet(a);
    assert Run([one, two]) == Step(Run([one]), two);
    CleanPoll(Run([one]), a);
    assert Run([one, two, three]) == Step(Run([one, two]), three);
    RepairedAgain(Run([one, two]), a);
    assert Run([one, two, three, four]) == Step(Run([one, two, three]), four);
    RefusedRepair(Run([one, two, three]), a);
  }

  lemma CleanPoll(t: Trace, a: Update)
    requires t.state == State(Some(a), [], map[KeyOf(a) := a], [], false) && a.subscribed
    ensures var next := Step(t, Poll(false, Some(Reached(false)), true));
            next.state == State(None, [], map[KeyOf(a) := a], [], false) && next.sent == t.sent
  {
  }

  lemma {:induction false} UnqueuedShort(keys: seq<Key>, desired: map<Key, Update>, queued: seq<Update>)
    requires forall k :: k in keys ==> k in desired
    ensures |Unqueued(keys, desired, queued)| <= |keys|
  {
    if keys != [] { UnqueuedShort(keys[1..], desired, queued); }
  }

  lemma RepairedAgain(t: Trace, a: Update)
    requires t.state == State(None, [], map[KeyOf(a) := a], [], false) && ValidTopic(a.topic)
    ensures var next := Step(t, Repair);
            next.state == State(None, [], map[KeyOf(a) := a], [a], false) && next.sent == t.sent && next.confirmed == map[]
  {
    hide Unqueued, Listed, ValidTopic;
    RepairedIs(t.state);
    var r := Repaired(t.state).repair;
    UnqueuedShort(Listed(t.state.desired), t.state.desired, t.state.queued);
    assert a in r && |t.state.desired| == 1;
    assert r == [a];
  }

  lemma RefusedRepair(t: Trace, a: Update)
    requires t.state == State(None, [], map[KeyOf(a) := a], [a], false) && t.sent == map[KeyOf(a) := a] && t.confirmed == map[]
    ensures var next := Step(t, Poll(false, None, false)); IsIdle(next.state) && SentOrQueued(next, KeyOf(a)) && !Assured(next, KeyOf(a))
  {
  }

  // ---------------------------------------------------------------- in place

  class Updates {
    var pending: Option<Update>
    var queued: seq<Update>
    var desired: map<Key, Update>
    var repair: seq<Update>
    var retry: bool

    function Contents(): State
      reads this
    {
      State(pending, queued, desired, repair, retry)
    }

    constructor ()
      ensures Contents() == EMPTY
    {
      pending, queued, desired, repair, retry := None, [], map[], [], false;
    }

    method Set(u: Update, prepared: bool) returns (ok: bool)
      modifies this
      ensures ok ==> TrySet(old(Contents()), u, prepared) == Some(Contents())
      ensures !ok ==> TrySet(old(Contents()), u, prepared) == None && Contents() == old(Contents())
    {
      hide Position, Without, ValidTopic;
      var existing := Position(queued, KeyOf(u));
      if existing.None? && |queued| >= MAX_INTERESTS { return false; }
      if KeyOf(u) !in desired && |desired| >= MAX_INTERESTS { return false; }
      if !ValidTopic(u.topic) || !prepared { return false; }
      desired := desired[KeyOf(u) := u];
      repair := Without(repair, KeyOf(u));
      if IsIdle(Contents()) {
        pending := Some(u);
      } else if existing.Some? {
        queued := queued[existing.value := u];
      } else {
        queued := queued + [u];
      }
      ok := true;
    }

    method Repair()
      modifies this
      ensures Contents() == Repaired(old(Contents()))
    {
      repair := Unqueued(Listed(desired), desired, queued);
    }

    method ReplaceRevision(workspace: Id32, revision: u64)
      modifies this
      ensures Contents() == Replaced(old(Contents()), workspace, revision)
    {
      hide Surviving;
      desired := map k | k in desired && (k.workspace != workspace || desired[k].revision == revision) :: desired[k];
      queued := Surviving(queued, workspace, revision);
      repair := Surviving(repair, workspace, revision);
      if pending.Some? && pending.value.workspace == workspace && pending.value.revision != revision { pending := None; }
    }

    method Settle(finished: Option<Outcome>)
      modifies this
      ensures Contents() == Settled(old(Contents()), finished)
    {
      if pending.Some? && finished.Some? {
        var u := pending.value;
        pending := None;
        match finished.value {
          case Reached(failures) =>
            if failures { retry := true; }
            if !u.subscribed && !failures && KeyOf(u) in desired && !desired[KeyOf(u)].subscribed && desired[KeyOf(u)].revision == u.revision {
              desired := desired - {KeyOf(u)};
            }
          case Broken => retry := true;
        }
      }
    }

    method Dispatch(prepared: bool) returns (flying: Option<Update>)
      modifies this
      ensures Contents() == Dispatched(old(Contents()), prepared)
      ensures flying == if prepared then Front(old(Contents())) else None
    {
      flying := None;
      if pending.None? && (queued != [] || repair != []) {
        var u := if queued != [] then queued[0] else repair[0];
        if queued != [] { queued := queued[1..]; } else { repair := repair[1..]; }
        if prepared { pending := Some(u); flying := Some(u); }
      }
    }

    /** Returns the update put in flight, if any. */
    method Poll(due: bool, finished: Option<Outcome>, prepared: bool) returns (flying: Option<Update>)
      modifies this
      ensures Contents() == Polled(old(Contents()), due, finished, prepared)
      ensures flying == InFlight(old(Contents()), Event.Poll(due, finished, prepared))
    {
      hide Repaired, Settled, Dispatched, Front;
      if IsIdle(Contents()) && retry && due {
        retry := false;
        Repair();
      }
      Settle(finished);
      flying := Dispatch(prepared);
    }

    method Cancel()
      modifies this
      ensures Contents() == EMPTY
    {
      pending, queued, desired, repair, retry := None, [], map[], [], false;
    }
  }
}
