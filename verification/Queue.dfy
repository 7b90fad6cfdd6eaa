/** The three-class consumer queue. Models `push` and `pop` of `DeliveryQueue` in
    crates/arachne-node/src/lib.rs: who is served when, in what order, and what
    becomes of every message accepted. */
module Scheduler {
  import opened Bytes
  import opened Ordering
  import opened Publication

  const CRITICAL_QUEUE: nat := 256
  const CURRENT_QUEUE: nat := 64
  const BULK_QUEUE: nat := 64
  const MAX_RUN: nat := 8

  datatype DeliveryClass = Critical | Current(replacementKey: Id32) | Bulk

  datatype Message = Message(workspace: Id32, revision: u64, sender: Id32, receivedFrom: Id32, topic: Topic,
                             payload: seq<byte>, recipients: seq<Id32>, delivery: DeliveryClass)

  datatype CurrentKey = CurrentKey(workspace: Id32, revision: u64, topic: Topic, sender: Id32, replacementKey: Id32, recipients: seq<Id32>)

  datatype State = State(critical: seq<Message>, current: map<CurrentKey, Message>, bulk: seq<Message>, criticalRun: nat, bulkTurn: bool)

  const EMPTY: State := State([], map[], [], 0, false)

  function KeyOf(m: Message): CurrentKey
    requires m.delivery.Current?
  {
    CurrentKey(m.workspace, m.revision, m.topic, m.sender, m.delivery.replacementKey, m.recipients)
  }

  /** One current message stands for the other: they agree on workspace, revision,
      topic, sender, replacement key and recipients. */
  predicate SameTarget(a: Message, b: Message) {
    && a.delivery.Current? && b.delivery.Current?
    && a.workspace == b.workspace && a.revision == b.revision && a.topic == b.topic && a.sender == b.sender
    && a.delivery.replacementKey == b.delivery.replacementKey && a.recipients == b.recipients
  }

  /** Two current messages share a key if and only if one stands for the other. */
  lemma SharedKey(a: Message, b: Message)
    requires a.delivery.Current? && b.delivery.Current?
    ensures KeyOf(a) == KeyOf(b) <==> SameTarget(a, b)
  {
  }

  // ------------------------------------------------------- the order of keys

  predicate ListLess(a: seq<seq<byte>>, b: seq<seq<byte>>) {
    b != [] && (a == [] || Less(a[0], b[0]) || (a[0] == b[0] && ListLess(a[1..], b[1..])))
  }

  function Parts(k: CurrentKey): seq<seq<byte>> { [k.topic, k.sender, k.replacementKey] + k.recipients }

  /** The tuple order the ordered map keeps its keys in. */
  predicate KeyLess(a: CurrentKey, b: CurrentKey) {
    Less(a.workspace, b.workspace)
    || (a.workspace == b.workspace && (a.revision < b.revision || (a.revision == b.revision && ListLess(Parts(a), Parts(b)))))
  }

  lemma {:induction false} ListIrreflexive(a: seq<seq<byte>>)
    ensures !ListLess(a, a)
  {
    if a != [] { LessIrreflexive(a[0]); ListIrreflexive(a[1..]); }
  }

  lemma {:induction false} ListTransitive(a: seq<seq<byte>>, b: seq<seq<byte>>, c: seq<seq<byte>>)
    requires ListLess(a, b) && ListLess(b, c)
    ensures ListLess(a, c)
  {
    hide Less;
    if a != [] {
      if Less(a[0], b[0]) && Less(b[0], c[0]) { LessTransitive(a[0], b[0], c[0]); }
      LessIrreflexive(a[0]);
      if a[0] == b[0] == c[0] { ListTransitive(a[1..], b[1..], c[1..]); }
    }
  }

  lemma {:induction false} ListTotal(a: seq<seq<byte>>, b: seq<seq<byte>>)
    ensures a == b || ListLess(a, b) || ListLess(b, a)
  {
    hide Less;
    if a != [] && b != [] {
      LessTotal(a[0], b[0]);
      if a[0] == b[0] {
        ListTotal(a[1..], b[1..]);
        assert a == [a[0]] + a[1..] && b == [b[0]] + b[1..];
      }
    }
  }

  lemma PartsInjective(a: CurrentKey, b: CurrentKey)
    requires Parts(a) == Parts(b)
    ensures (a.topic, a.sender, a.replacementKey, a.recipients) == (b.topic, b.sender, b.replacementKey, b.recipients)
  {
    assert Parts(a)[0] == a.topic && Parts(a)[1] == a.sender && Parts(a)[2] == a.replacementKey;
    assert Parts(a)[3..] == a.recipients && Parts(b)[3..] == b.recipients;
  }

  /** Keys are compared field by field; the recipients, last, one by one. */
  lemma KeyLessExactly(a: CurrentKey, b: CurrentKey)
    ensures KeyLess(a, b) <==>
              if a.workspace != b.workspace then Less(a.workspace, b.workspace) else
              if a.revision != b.revision then a.revision < b.revision else
              if a.topic != b.topic then Less(a.topic, b.topic) else
              if a.sender != b.sender then Less(a.sender, b.sender) else
              if a.replacementKey != b.replacementKey then Less(a.replacementKey, b.replacementKey) else
              ListLess(a.recipients, b.recipients)
  {
    hide Less;
    LessIrreflexive(a.workspace); LessIrreflexive(a.topic); LessIrreflexive(a.sender); LessIrreflexive(a.replacementKey);
    ListHead([a.topic, a.sender, a.replacementKey], a.recipients, [b.topic, b.sender, b.replacementKey], b.recipients);
    ListHead([a.sender, a.replacementKey], a.recipients, [b.sender, b.replacementKey], b.recipients);
    ListHead([a.replacementKey], a.recipients, [b.replacementKey], b.recipients);
    assert [] + a.recipients == a.recipients && [] + b.recipients == b.recipients;
  }

  lemma ListHead(a: seq<seq<byte>>, x: seq<seq<byte>>, b: seq<seq<byte>>, y: seq<seq<byte>>)
    requires a != [] && b != []
    ensures ListLess(a + x, b + y) <==> Less(a[0], b[0]) || (a[0] == b[0] && ListLess(a[1..] + x, b[1..] + y))
  {
    hide Less;
    assert (a + x)[1..] == a[1..] + x && (b + y)[1..] == b[1..] + y;
  }

  lemma KeyOrder()
    ensures TotalOrder(KeyLess)
  {
    hide Less, ListLess, Parts;
    LessIsTotalOrder();
    forall a: CurrentKey ensures !KeyLess(a, a) { ListIrreflexive(Parts(a)); }
    forall a: CurrentKey, b: CurrentKey, c: CurrentKey | KeyLess(a, b) && KeyLess(b, c) ensures KeyLess(a, c) {
      if ListLess(Parts(a), Parts(b)) && ListLess(Parts(b), Parts(c)) { ListTransitive(Parts(a), Parts(b), Parts(c)); }
    }
    forall a: CurrentKey, b: CurrentKey ensures a == b || KeyLess(a, b) || KeyLess(b, a) {
      ListTotal(Parts(a), Parts(b));
      if Parts(a) == Parts(b) { PartsInjective(a, b); }
    }
  }

  /** The key `pop_first` takes. */
  function FirstKey(current: map<CurrentKey, Message>): (k: CurrentKey)
    requires current != map[]
    ensures k in current && forall j :: j in current && j != k ==> KeyLess(k, j)
  {
    KeyOrder();
    var keys := Ascending(KeyLess, current.Keys);
    assert |current.Keys| != 0 by { var j :| j in current; }
    assert keys[0] in keys;
    assert forall j :: j in current ==> j in keys;
    keys[0]
  }

  // ------------------------------------------------------------ push and pop

  /** `push`; None is backpressure. */
  function Pushed(s: State, closed: bool, m: Message): Option<State> {
    if closed then None else
    match m.delivery
    case Critical => if |s.critical| < CRITICAL_QUEUE then Some(s.(critical := s.critical + [m])) else None
    case Current(_) => if |s.current| == CURRENT_QUEUE && KeyOf(m) !in s.current then None else Some(s.(current := s.current[KeyOf(m) := m]))
    case Bulk => if |s.bulk| < BULK_QUEUE then Some(s.(bulk := s.bulk + [m])) else None
  }

  datatype Service = Nothing | OfCritical | OfCurrent | OfBulk

  /** Which class `pop` serves. */
  function Choice(s: State): Service {
    if s.criticalRun < MAX_RUN && s.critical != [] then OfCritical else
    if s.bulk != [] && (s.bulkTurn || s.current == map[]) then OfBulk else
    if s.current != map[] then OfCurrent else
    if s.critical != [] then OfCritical else Nothing
  }

  /** `pop`. */
  function Popped(s: State): (State, Option<Message>) {
    match Choice(s)
    case Nothing => (s, None)
    case OfCritical => (s.(critical := s.critical[1..], criticalRun := if s.criticalRun < MAX_RUN then s.criticalRun + 1 else s.criticalRun), Some(s.critical[0]))
    case OfBulk => (s.(bulk := s.bulk[1..], criticalRun := 0, bulkTurn := !s.bulkTurn), Some(s.bulk[0]))
    case OfCurrent => (s.(current := s.current - {FirstKey(s.current)}, criticalRun := 0, bulkTurn := !s.bulkTurn), Some(s.current[FirstKey(s.current)]))
  }

  /** A waiting message is always served. */
  lemma PopServes(s: State)
    ensures Popped(s).1.None? <==> s.critical == [] && s.current == map[] && s.bulk == []
  {
    hide FirstKey;
  }

  // ----------------------------------------------------------------- fairness

  /** One turn of the consumer: any pushes, from any number of peers, then a pop. */
  datatype Turn = Turn(pushes: seq<(bool, Message)>)

  function PushedAll(s: State, pushes: seq<(bool, Message)>): State
    decreases |pushes|
  {
    if pushes == [] then s else
    var next := Pushed(s, pushes[0].0, pushes[0].1);
    PushedAll(if next.Some? then next.value else s, pushes[1..])
  }

  function Before(s: State, turn: Turn): State { PushedAll(s, turn.pushes) }

  function AfterTurns(s: State, turns: seq<Turn>): State {
    if turns == [] then s else Popped(Before(AfterTurns(s, turns[..|turns| - 1]), turns[|turns| - 1])).0
  }

  /** The state the n-th pop of a run finds. */
  function Found(s: State, turns: seq<Turn>, n: nat): State
    requires n < |turns|
  {
    Before(AfterTurns(s, turns[..n]), turns[n])
  }

  /** Pushing never touches the turn-taking, and only adds at the back. */
  lemma {:induction false} PushedAllKeeps(s: State, pushes: seq<(bool, Message)>)
    ensures var t := PushedAll(s, pushes);
            && t.criticalRun == s.criticalRun && t.bulkTurn == s.bulkTurn
            && s.critical <= t.critical && s.bulk <= t.bulk && s.current.Keys <= t.current.Keys
    decreases |pushes|
  {
    if pushes != [] {
      var next := Pushed(s, pushes[0].0, pushes[0].1);
      PushedAllKeeps(if next.Some? then next.value else s, pushes[1..]);
    }
  }

  /** Pops a class may still wait: at most eight critical ones and one of the
      other lower class, then its own turn. */
  function BulkWait(s: State): int { (if s.bulkTurn then 9 else 18) - s.criticalRun }
  function CurrentWait(s: State): int { (if s.bulkTurn then 18 else 9) - s.criticalRun }

  lemma WaitShrinks(s: State)
    requires s.criticalRun <= MAX_RUN
    ensures Popped(s).0.criticalRun <= MAX_RUN
    ensures s.bulk != [] && Choice(s) != OfBulk ==> 1 <= BulkWait(Popped(s).0) < BulkWait(s)
    ensures s.current != map[] && Choice(s) != OfCurrent ==> 1 <= CurrentWait(Popped(s).0) < CurrentWait(s)
  {
    hide FirstKey;
  }

  /** While a class waits unserved, its wait has shrunk by the number of pops. */
  lemma {:induction false} WaitBounded(s: State, turns: seq<Turn>)
    requires s.criticalRun <= MAX_RUN
    ensures AfterTurns(s, turns).criticalRun <= MAX_RUN
    ensures (forall n :: 0 <= n < |turns| ==> Found(s, turns, n).bulk != [] && Choice(Found(s, turns, n)) != OfBulk) ==>
              BulkWait(AfterTurns(s, turns)) <= BulkWait(s) - |turns| && (turns != [] ==> BulkWait(AfterTurns(s, turns)) >= 1)
    ensures (forall n :: 0 <= n < |turns| ==> Found(s, turns, n).current != map[] && Choice(Found(s, turns, n)) != OfCurrent) ==>
              CurrentWait(AfterTurns(s, turns)) <= CurrentWait(s) - |turns| && (turns != [] ==> CurrentWait(AfterTurns(s, turns)) >= 1)
    decreases |turns|
  {
    hide Popped, Choice, PushedAll;
    if turns != [] {
      var n := |turns| - 1;
      var front := turns[..n];
      WaitBounded(s, front);
      forall i | 0 <= i < n ensures Found(s, front, i) == Found(s, turns, i) { assert front[..i] == turns[..i]; }
      PushedAllKeeps(AfterTurns(s, front), turns[n].pushes);
      WaitShrinks(Found(s, turns, n));
    }
  }

  /** Any 18 consecutive pops serve a bulk message if bulk is never found empty,
      whatever is pushed between them. */
  lemma BulkIsServed(s: State, turns: seq<Turn>)
    requires s.criticalRun <= MAX_RUN && |turns| == 18
    requires forall n :: 0 <= n < 18 ==> Found(s, turns, n).bulk != []
    ensures exists n :: 0 <= n < 18 && Choice(Found(s, turns, n)) == OfBulk
  {
    hide Choice, Found, AfterTurns;
    WaitBounded(s, turns);
  }

  /** And likewise a current one. */
  lemma CurrentIsServed(s: State, turns: seq<Turn>)
    requires s.criticalRun <= MAX_RUN && |turns| == 18
    requires forall n :: 0 <= n < 18 ==> Found(s, turns, n).current != map[]
    ensures exists n :: 0 <= n < 18 && Choice(Found(s, turns, n)) == OfCurrent
  {
    hide Choice, Found, AfterTurns;
    WaitBounded(s, turns);
  }

  /** A message at the head of the critical queue is served within two pops. */
  lemma CriticalWithinTwo(s: State, first: Turn, second: Turn)
    requires s.criticalRun <= MAX_RUN && s.critical != []
    ensures var a := Before(s, first);
            Popped(a).1 == Some(s.critical[0]) || Popped(Before(Popped(a).0, second)).1 == Some(s.critical[0])
  {
    hide FirstKey, PushedAll;
    PushedAllKeeps(s, first.pushes);
    var a := Before(s, first);
    PushedAllKeeps(Popped(a).0, second.pushes);
  }

  function PoppedTimes(s: State, n: nat): State
    decreases n
  {
    if n == 0 then s else PoppedTimes(Popped(s).0, n - 1)
  }

  lemma {:induction false} CriticalRunPops(s: State, n: nat)
    requires s.criticalRun + n <= MAX_RUN && n <= |s.critical|
    ensures PoppedTimes(s, n) == s.(critical := s.critical[n..], criticalRun := s.criticalRun + n)
    decreases n
  {
    hide FirstKey;
    if n > 0 {
      assert s.critical[1..][n - 1..] == s.critical[n..];
      CriticalRunPops(Popped(s).0, n - 1);
    }
  }

  lemma {:induction false} PoppedTimesAdd(s: State, m: nat, n: nat)
    ensures PoppedTimes(s, m + n) == PoppedTimes(PoppedTimes(s, m), n)
    decreases m
  {
    hide Popped;
    if m > 0 { PoppedTimesAdd(Popped(s).0, m - 1, n); }
  }

  /** Eighteen is exact: seventeen pops can leave a full bulk queue untouched. */
  lemma SeventeenMayPass(s: State)
    requires s.criticalRun == 0 && !s.bulkTurn && |s.critical| >= 16 && s.current != map[] && s.bulk != []
    ensures PoppedTimes(s, 17).bulk == s.bulk && Choice(PoppedTimes(s, 17)) == OfBulk
  {
    hide FirstKey, PoppedTimes;
    var a := PoppedTimes(s, 8);
    CriticalRunPops(s, 8);
    PoppedTimesAdd(s, 8, 9);
    var b := Popped(a).0;
    PoppedOnce(a);
    PoppedTimesAdd(a, 1, 8);
    CriticalRunPops(b, 8);
  }

  /** And so it is for a current message, when bulk has the first turn. */
  lemma SeventeenMayPassCurrent(s: State)
    requires s.criticalRun == 0 && s.bulkTurn && |s.critical| >= 16 && s.current != map[] && s.bulk != []
    ensures PoppedTimes(s, 17).current == s.current && Choice(PoppedTimes(s, 17)) == OfCurrent
  {
    hide FirstKey, PoppedTimes;
    var a := PoppedTimes(s, 8);
    CriticalRunPops(s, 8);
    PoppedTimesAdd(s, 8, 9);
    var b := Popped(a).0;
    PoppedOnce(a);
    PoppedTimesAdd(a, 1, 8);
    CriticalRunPops(b, 8);
  }

  lemma PoppedOnce(s: State)
    ensures PoppedTimes(s, 1) == Popped(s).0
  {
    hide Popped;
    assert PoppedTimes(s, 1) == PoppedTimes(Popped(s).0, 0);
  }

  // ---------------------------------------------- order, and nothing is lost

  datatype Event = Offer(closed: bool, message: Message) | Take

  /** The queue together with everything it accepted and served so far. */
  datatype Ledger = Ledger(state: State, accepted: seq<Message>, served: seq<Message>)

  function Next(l: Ledger, e: Event): Ledger {
    match e
    case Offer(closed, m) =>
      var next := Pushed(l.state, closed, m);
      if next.Some? then Ledger(next.value, l.accepted + [m], l.served) else l
    case Take =>
      var (s, m) := Popped(l.state);
      Ledger(s, l.accepted, if m.Some? then l.served + [m.value] else l.served)
  }

  function Run(events: seq<Event>): Ledger {
    if events == [] then Ledger(EMPTY, [], []) else Next(Run(events[..|events| - 1]), events[|events| - 1])
  }

  lemma RunOneMore(events: seq<Event>, e: Event)
    ensures Run(events + [e]) == Next(Run(events), e)
  {
    assert (events + [e])[..|events|] == events;
  }

  function Repeated(e: Event, n: nat): seq<Event> { seq(n, _ => e) }

  lemma {:induction false} RunTakes(events: seq<Event>, n: nat)
    ensures Run(events + Repeated(Take, n)).state == PoppedTimes(Run(events).state, n)
  {
    hide Popped, Run;
    if n == 0 {
      assert events + Repeated(Take, 0) == events;
    } else {
      assert events + Repeated(Take, n) == events + Repeated(Take, n - 1) + [Take];
      RunOneMore(events + Repeated(Take, n - 1), Take);
      RunTakes(events, n - 1);
      PoppedTimesAdd(Run(events).state, n - 1, 1);
      PoppedOnce(PoppedTimes(Run(events).state, n - 1));
    }
  }

  lemma {:induction false} RunCriticals(events: seq<Event>, m: Message, n: nat)
    requires m.delivery.Critical? && |Run(events).state.critical| + n <= CRITICAL_QUEUE
    ensures var s := Run(events).state; Run(events + Repeated(Offer(false, m), n)).state == s.(critical := s.critical + seq(n, _ => m))
  {
    hide Run;
    if n == 0 {
      assert events + Repeated(Offer(false, m), 0) == events && Run(events).state.critical + seq(0, _ => m) == Run(events).state.critical;
    } else {
      assert events + Repeated(Offer(false, m), n) == events + Repeated(Offer(false, m), n - 1) + [Offer(false, m)];
      RunOneMore(events + Repeated(Offer(false, m), n - 1), Offer(false, m));
      RunCriticals(events, m, n - 1);
      assert seq(n - 1, _ => m) + [m] == seq(n, _ => m);
    }
  }

  /** Sixteen critical messages, a current and a bulk one join what is there. */
  function Crowd(events: seq<Event>, critical: Message, current: Message, bulk: Message): seq<Event> {
    events + Repeated(Offer(false, critical), 16) + [Offer(false, current)] + [Offer(false, bulk)]
  }

  lemma Crowded(events: seq<Event>, critical: Message, current: Message, bulk: Message)
    requires critical.delivery.Critical? && current.delivery.Current? && bulk.delivery.Bulk?
    requires var s := Run(events).state; s.critical == [] && s.current == map[] && s.bulk == []
    ensures var s := Run(events).state;
            Run(Crowd(events, critical, current, bulk)).state == s.(critical := seq(16, _ => critical), current := map[KeyOf(current) := current], bulk := [bulk])
  {
    hide Run;
    var first := events + Repeated(Offer(false, critical), 16);
    RunCriticals(events, critical, 16);
    assert [] + seq(16, _ => critical) == seq(16, _ => critical);
    RunOneMore(first, Offer(false, current));
    RunOneMore(first + [Offer(false, current)], Offer(false, bulk));
  }

  /** From an empty queue: the bulk message still waits after seventeen pops. */
  lemma BulkWaitsExample(critical: Message, current: Message, bulk: Message)
    requires critical.delivery.Critical? && current.delivery.Current? && bulk.delivery.Bulk?
    ensures Run(Crowd([], critical, current, bulk) + Repeated(Take, 17)).state.bulk == [bulk]
  {
    hide PoppedTimes, Popped, Choice, Crowd;
    Crowded([], critical, current, bulk);
    var events := Crowd([], critical, current, bulk);
    SeventeenMayPass(Run(events).state);
    RunTakes(events, 17);
  }

  /** And the current one does, once another was served before it. */
  lemma CurrentWaitsExample(critical: Message, current: Message, bulk: Message)
    requires critical.delivery.Critical? && current.delivery.Current? && bulk.delivery.Bulk?
    ensures Run(Crowd([Offer(false, current)] + [Take], critical, current, bulk) + Repeated(Take, 17)).state.current == map[KeyOf(current) := current]
  {
    hide PoppedTimes, Choice, Crowd, FirstKey;
    FirstServed(current);
    var start := [Offer(false, current)] + [Take];
    Crowded(start, critical, current, bulk);
    var events := Crowd(start, critical, current, bulk);
    SeventeenMayPassCurrent(Run(events).state);
    RunTakes(events, 17);
  }

  lemma FirstServed(current: Message)
    requires current.delivery.Current?
    ensures Run([Offer(false, current)] + [Take]).state == EMPTY.(bulkTurn := true)
  {
    hide FirstKey;
    assert [] + [Offer(false, current)] == [Offer(false, current)];
    RunOneMore([], Offer(false, current));
    RunOneMore([Offer(false, current)], Take);
    var held := map[KeyOf(current) := current];
    assert held - {KeyOf(current)} == map[];
  }

  function CriticalOf(ms: seq<Message>): seq<Message> {
    if ms == [] then [] else CriticalOf(ms[..|ms| - 1]) + if ms[|ms| - 1].delivery.Critical? then [ms[|ms| - 1]] else []
  }

  function BulkOf(ms: seq<Message>): seq<Message> {
    if ms == [] then [] else BulkOf(ms[..|ms| - 1]) + if ms[|ms| - 1].delivery.Bulk? then [ms[|ms| - 1]] else []
  }

  /** The message is a current one with exactly the key's six fields. */
  predicate Under(m: Message, k: CurrentKey) {
    && m.delivery.Current? && m.workspace == k.workspace && m.revision == k.revision && m.topic == k.topic
    && m.sender == k.sender && m.delivery.replacementKey == k.replacementKey && m.recipients == k.recipients
  }

  /** The messages under one key. */
  function CurrentOf(ms: seq<Message>, k: CurrentKey): (r: seq<Message>)
    ensures forall m :: m in r ==> m in ms && Under(m, k)
  {
    if ms == [] then [] else CurrentOf(ms[..|ms| - 1], k) + if Under(ms[|ms| - 1], k) then [ms[|ms| - 1]] else []
  }

  /** What waits under a key is the last value accepted there; if nothing waits,
      the last value accepted was the last one served. Never more are served than
      were accepted. */
  ghost predicate KeyAccounted(l: Ledger, k: CurrentKey) {
    var accepted, served := CurrentOf(l.accepted, k), CurrentOf(l.served, k);
    if k in l.state.current then
      |served| < |accepted| && accepted[|accepted| - 1] == l.state.current[k]
    else
      |served| <= |accepted| && (accepted == [] <==> served == []) && (accepted != [] ==> accepted[|accepted| - 1] == served[|served| - 1])
  }

  predicate CriticalOnly(ms: seq<Message>) { forall i :: 0 <= i < |ms| ==> ms[i].delivery.Critical? }
  predicate BulkOnly(ms: seq<Message>) { forall i :: 0 <= i < |ms| ==> ms[i].delivery.Bulk? }
  predicate Keyed(current: map<CurrentKey, Message>) { forall k :: k in current ==> Under(current[k], k) }

  predicate WellState(s: State) {
    && CriticalOnly(s.critical) && BulkOnly(s.bulk) && Keyed(s.current)
    && |s.critical| <= CRITICAL_QUEUE && |s.current| <= CURRENT_QUEUE && |s.bulk| <= BULK_QUEUE
    && s.criticalRun <= MAX_RUN
  }

  predicate InOrder(l: Ledger) {
    && CriticalOf(l.accepted) == CriticalOf(l.served) + l.state.critical
    && BulkOf(l.accepted) == BulkOf(l.served) + l.state.bulk
  }

  ghost predicate Accounted(l: Ledger) {
    WellState(l.state) && InOrder(l) && forall k :: KeyAccounted(l, k)
  }

  lemma Appended(ms: seq<Message>, m: Message)
    ensures CriticalOf(ms + [m]) == CriticalOf(ms) + if m.delivery.Critical? then [m] else []
    ensures BulkOf(ms + [m]) == BulkOf(ms) + if m.delivery.Bulk? then [m] else []
    ensures forall k :: CurrentOf(ms + [m], k) == CurrentOf(ms, k) + if Under(m, k) then [m] else []
  {
    assert (ms + [m])[..|ms|] == ms;
  }

  lemma PutKeyed(current: map<CurrentKey, Message>, m: Message)
    requires Keyed(current) && m.delivery.Current?
    ensures Keyed(current[KeyOf(m) := m])
    ensures |current[KeyOf(m) := m]| == |current| + if KeyOf(m) in current then 0 else 1
  {
    assert current[KeyOf(m) := m].Keys == current.Keys + {KeyOf(m)};
  }

  lemma DropKeyed(current: map<CurrentKey, Message>, k: CurrentKey)
    requires Keyed(current) && k in current
    ensures Keyed(current - {k}) && |current - {k}| < |current| && Under(current[k], k)
  {
    assert (current - {k}).Keys == current.Keys - {k};
  }

  lemma PushedWell(s: State, closed: bool, m: Message)
    requires WellState(s) && Pushed(s, closed, m).Some?
    ensures WellState(Pushed(s, closed, m).value)
  {
    hide Keyed, KeyOf;
    if m.delivery.Current? { PutKeyed(s.current, m); }
  }

  predicate Waiting(s: State, m: Message) { m in s.critical || m in s.bulk || m in s.current.Values }

  /** A message is accepted exactly while the queue is open and its class has room,
      where a current one also finds room in the place of one it stands for; then
      it waits, with everything that waited before except what it stands for. */
  lemma PushedExactly(s: State, closed: bool, m: Message)
    requires WellState(s)
    ensures Pushed(s, closed, m).Some? <==>
              !closed && match m.delivery
                         case Critical => |s.critical| < CRITICAL_QUEUE
                         case Current(_) => |s.current| < CURRENT_QUEUE || exists w :: w in s.current.Values && SameTarget(w, m)
                         case Bulk => |s.bulk| < BULK_QUEUE
    ensures Pushed(s, closed, m).Some? ==>
              var t := Pushed(s, closed, m).value;
              && t.criticalRun == s.criticalRun && t.bulkTurn == s.bulkTurn
              && forall w :: Waiting(t, w) <==> w == m || (Waiting(s, w) && !SameTarget(w, m))
  {
    hide Waiting, Keyed;
    if m.delivery.Current? { TargetKeyed(s.current, m); }
    if Pushed(s, closed, m).Some? {
      forall w ensures Waiting(Pushed(s, closed, m).value, w) <==> w == m || (Waiting(s, w) && !SameTarget(w, m)) { PushedWaits(s, closed, m, w); }
    }
  }

  lemma PushedWaits(s: State, closed: bool, m: Message, w: Message)
    requires WellState(s) && Pushed(s, closed, m).Some?
    ensures Waiting(Pushed(s, closed, m).value, w) <==> w == m || (Waiting(s, w) && !SameTarget(w, m))
  {
    if w in s.critical || w in s.bulk { NoCurrent(s, w); }
    var t := Pushed(s, closed, m).value;
    match m.delivery
    case Critical =>
      assert w in t.critical <==> w in s.critical || w == m;
    case Current(_) =>
      PutValue(s.current, m, t.current, w);
    case Bulk =>
      assert w in t.bulk <==> w in s.bulk || w == m;
  }

  lemma NoCurrent(s: State, w: Message)
    requires WellState(s) && (w in s.critical || w in s.bulk)
    ensures !w.delivery.Current?
  {
  }

  lemma TargetKeyed(current: map<CurrentKey, Message>, m: Message)
    requires Keyed(current) && m.delivery.Current?
    ensures (exists w :: w in current.Values && SameTarget(w, m)) <==> KeyOf(m) in current
  {
    if KeyOf(m) in current { assert current[KeyOf(m)] in current.Values && SameTarget(current[KeyOf(m)], m); }
  }

  lemma PutValue(current: map<CurrentKey, Message>, m: Message, next: map<CurrentKey, Message>, w: Message)
    requires Keyed(current) && m.delivery.Current? && next == current[KeyOf(m) := m]
    ensures w in next.Values <==> w == m || (w in current.Values && !SameTarget(w, m))
  {
    assert KeyOf(m) in next;
    if w in current.Values && !SameTarget(w, m) {
      var k :| k in current && current[k] == w;
      assert k != KeyOf(m) && next[k] == w;
    }
  }

  lemma PoppedWell(s: State)
    requires WellState(s)
    ensures WellState(Popped(s).0)
  {
    hide FirstKey, Keyed, Under, CriticalOnly, BulkOnly;
    match Choice(s)
    case Nothing =>
    case OfCritical => TailOnly(s.critical);
    case OfBulk => TailOnly(s.bulk);
    case OfCurrent => DropKeyed(s.current, FirstKey(s.current));
  }

  lemma TailOnly(ms: seq<Message>)
    requires ms != []
    ensures CriticalOnly(ms) ==> CriticalOnly(ms[1..])
    ensures BulkOnly(ms) ==> BulkOnly(ms[1..])
  {
  }

  lemma PoppedClass(s: State)
    requires WellState(s)
    ensures match Choice(s)
            case Nothing => Popped(s).1.None?
            case OfCritical => Popped(s).1.Some? && Popped(s).1.value.delivery.Critical?
            case OfBulk => Popped(s).1.Some? && Popped(s).1.value.delivery.Bulk?
            case OfCurrent => Popped(s).1.Some? && Under(Popped(s).1.value, FirstKey(s.current))
  {
    hide FirstKey, Keyed, Under;
    if s.current != map[] { DropKeyed(s.current, FirstKey(s.current)); }
  }

  lemma OfferKeeps(l: Ledger, e: Event)
    requires e.Offer? && InOrder(l)
    ensures InOrder(Next(l, e))
    ensures forall k :: KeyAccounted(l, k) ==> KeyAccounted(Next(l, e), k)
  {
    hide CriticalOf, BulkOf, CurrentOf;
    Appended(l.accepted, e.message);
  }

  lemma TakeInOrder(l: Ledger)
    requires WellState(l.state) && InOrder(l)
    ensures InOrder(Next(l, Take))
  {
    hide CriticalOf, BulkOf, CurrentOf, FirstKey, WellState, KeyOf;
    PoppedClass(l.state);
    var served := Popped(l.state).1;
    if served.Some? { Appended(l.served, served.value); }
  }

  lemma TakeAccounts(l: Ledger, k: CurrentKey)
    requires WellState(l.state) && KeyAccounted(l, k)
    ensures KeyAccounted(Next(l, Take), k)
  {
    hide CriticalOf, BulkOf, CurrentOf, FirstKey, WellState, KeyOf;
    PoppedClass(l.state);
    var served := Popped(l.state).1;
    if served.Some? { CurrentAppended(l.served, served.value, k); }
  }

  lemma CurrentAppended(ms: seq<Message>, m: Message, k: CurrentKey)
    ensures CurrentOf(ms + [m], k) == CurrentOf(ms, k) + if Under(m, k) then [m] else []
  {
    hide Under;
    assert (ms + [m])[..|ms|] == ms;
  }

  lemma NextAccounted(l: Ledger, e: Event)
    requires Accounted(l)
    ensures Accounted(Next(l, e))
  {
    hide InOrder, KeyAccounted, WellState, Pushed, Popped;
    match e
    case Offer(closed, m) =>
      OfferKeeps(l, e);
      if Pushed(l.state, closed, m).Some? { PushedWell(l.state, closed, m); }
    case Take =>
      TakeInOrder(l);
      forall k ensures KeyAccounted(Next(l, e), k) { TakeAccounts(l, k); }
      PoppedWell(l.state);
  }

  /** Every run keeps the account: critical and bulk messages are served exactly
      in the order they were accepted, and a current message goes missing only
      when a later one replaces it under its own key. */
  lemma {:induction false} RunAccounted(events: seq<Event>)
    ensures Accounted(Run(events))
  {
    hide Accounted, Next;
    if events == [] {
      EmptyAccounted();
    } else {
      var l, e := Run(events[..|events| - 1]), events[|events| - 1];
      RunAccounted(events[..|events| - 1]);
      NextAccounted(l, e);
    }
  }

  lemma EmptyAccounted()
    ensures Accounted(Ledger(EMPTY, [], []))
  {
  }

  /** Nothing is lost: every accepted message is served, waits, or has been
      replaced by a later one accepted with the same workspace, revision, topic,
      sender, replacement key and recipients. */
  lemma NothingLost(events: seq<Event>, i: nat)
    requires i < |Run(events).accepted|
    ensures var l := Run(events);
            var m := l.accepted[i];
            || m in l.served || m in l.state.critical || m in l.state.bulk
            || (exists k :: k in l.state.current && l.state.current[k] == m)
            || (exists j :: i < j < |l.accepted| && SameTarget(l.accepted[j], m))
  {
    hide Run, CriticalOf, BulkOf, CurrentOf;
    RunAccounted(events);
    var l := Run(events);
    var m := l.accepted[i];
    match m.delivery
    case Critical => CriticalHas(l.accepted, m); CriticalMembers(l.served);
    case Bulk => BulkHas(l.accepted, m); BulkMembers(l.served);
    case Current(_) =>
      if forall j :: i < j < |l.accepted| ==> !SameTarget(l.accepted[j], m) {
        LastUnder(l.accepted, i, KeyOf(m));
        assert KeyAccounted(l, KeyOf(m));
      }
  }

  lemma {:induction false} CriticalHas(ms: seq<Message>, m: Message)
    requires m in ms && m.delivery.Critical?
    ensures m in CriticalOf(ms)
  {
    if m != ms[|ms| - 1] { CriticalHas(ms[..|ms| - 1], m); }
  }

  lemma {:induction false} CriticalMembers(ms: seq<Message>)
    ensures forall m :: m in CriticalOf(ms) ==> m in ms
  {
    if ms != [] { CriticalMembers(ms[..|ms| - 1]); }
  }

  lemma {:induction false} BulkHas(ms: seq<Message>, m: Message)
    requires m in ms && m.delivery.Bulk?
    ensures m in BulkOf(ms)
  {
    if m != ms[|ms| - 1] { BulkHas(ms[..|ms| - 1], m); }
  }

  lemma {:induction false} BulkMembers(ms: seq<Message>)
    ensures forall m :: m in BulkOf(ms) ==> m in ms
  {
    if ms != [] { BulkMembers(ms[..|ms| - 1]); }
  }

  lemma {:induction false} LastUnder(ms: seq<Message>, i: nat, k: CurrentKey)
    requires i < |ms| && Under(ms[i], k) && forall j :: i < j < |ms| ==> !Under(ms[j], k)
    ensures CurrentOf(ms, k) != [] && CurrentOf(ms, k)[|CurrentOf(ms, k)| - 1] == ms[i]
    decreases |ms|
  {
    if i < |ms| - 1 { LastUnder(ms[..|ms| - 1], i, k); }
  }

  // ---------------------------------------------------------------- in place

  class DeliveryQueue {
    var critical: seq<Message>
    var current: map<CurrentKey, Message>
    var bulk: seq<Message>
    var criticalRun: nat
    var bulkTurn: bool
    var closed: bool

    function Contents(): State
      reads this
    {
      State(critical, current, bulk, criticalRun, bulkTurn)
    }

    constructor ()
      ensures Contents() == EMPTY && !closed
    {
      critical, current, bulk, criticalRun, bulkTurn, closed := [], map[], [], 0, false, false;
    }

    /** False is backpressure, and then nothing changes. */
    method Push(m: Message) returns (ok: bool)
      modifies this
      ensures closed == old(closed)
      ensures ok ==> Pushed(old(Contents()), closed, m) == Some(Contents())
      ensures !ok ==> Pushed(old(Contents()), closed, m) == None && Contents() == old(Contents())
    {
      if closed { return false; }
      match m.delivery {
        case Critical =>
          if |critical| >= CRITICAL_QUEUE { return false; }
          critical := critical + [m];
        case Current(_) =>
          if |current| == CURRENT_QUEUE && KeyOf(m) !in current { return false; }
          current := current[KeyOf(m) := m];
        case Bulk =>
          if |bulk| >= BULK_QUEUE { return false; }
          bulk := bulk + [m];
      }
      ok := true;
    }

    method PopBulk() returns (m: Option<Message>)
      modifies this
      ensures Contents() == old(Contents()).(bulk := if old(bulk) == [] then [] else old(bulk)[1..]) && closed == old(closed)
      ensures if old(bulk) == [] then m == None else m == Some(old(bulk)[0])
    {
      if bulk == [] { return None; }
      m := Some(bulk[0]);
      bulk := bulk[1..];
    }

    method PopCurrent() returns (m: Option<Message>)
      modifies this
      ensures Contents() == old(Contents()).(current := if old(current) == map[] then map[] else old(current) - {FirstKey(old(current))}) && closed == old(closed)
      ensures if old(current) == map[] then m == None else m == Some(old(current)[FirstKey(old(current))])
    {
      if current == map[] { return None; }
      var k := FirstKey(current);
      m := Some(current[k]);
      current := current - {k};
    }

    method Pop() returns (m: Option<Message>)
      modifies this
      ensures (Contents(), m) == Popped(old(Contents())) && closed == old(closed)
    {
      hide FirstKey;
      if criticalRun < MAX_RUN && critical != [] {
        m := Some(critical[0]);
        critical, criticalRun := critical[1..], criticalRun + 1;
        return;
      }
      if bulkTurn {
        m := PopBulk();
        if m.None? { m := PopCurrent(); }
      } else {
        m := PopCurrent();
        if m.None? { m := PopBulk(); }
      }
      if m.Some? {
        criticalRun, bulkTurn := 0, !bulkTurn;
        return;
      }
      if critical != [] {
        m := Some(critical[0]);
        critical := critical[1..];
      }
    }
  }
}
