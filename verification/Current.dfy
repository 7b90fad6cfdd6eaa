/** The latest value of every key, and a version number per scope. Models
    `CurrentViewIndex` of crates/arachne-delivery/src/current.rs: insertion as a
    function of the index, what whole runs of insertions leave behind, and the
    object updated in place. */
module Current {
  import opened Bytes
  import opened Ordering
  import opened Publication
  import opened Retention

  const MAX_CURRENT_VALUES: nat := 64
  const MAX_CURRENT_SELECTIONS: nat := 64
  const MAX_PACKET_BYTES: nat := MAX_REPLY_BYTES - MAX_APPLICATION_CIPHERTEXT

  datatype Scope = Scope(revision: u64, topic: Topic, selector: Id32)
  datatype Slot = Slot(scope: Scope, key: Id32)

  datatype CurrentValue = CurrentValue(key: Id32, expiresAt: u64, tombstone: bool, packet: seq<byte>)
  datatype Indexed = Indexed(context: Context, selector: Id32, value: CurrentValue)

  datatype Index = Index(workspace: Id32, authority: Id32, epoch: u64, cuts: map<Scope, u64>, values: map<Slot, Indexed>)

  function New(workspace: Id32, authority: Id32, epoch: u64): Index {
    Index(workspace, authority, epoch, map[], map[])
  }

  /** One call of `insert`. */
  datatype Insertion = Insertion(context: Context, selector: Id32, key: Id32, expiresAt: u64, tombstone: bool, packet: seq<byte>)

  function ScopeOf(op: Insertion): Scope { Scope(op.context.revision, op.context.topic, op.selector) }
  function SlotOf(op: Insertion): Slot { Slot(ScopeOf(op), op.key) }
  function EntryOf(op: Insertion): Indexed {
    Indexed(op.context, op.selector, CurrentValue(op.key, op.expiresAt, op.tombstone, op.packet))
  }

  ghost function PacketLengths(values: map<Slot, Indexed>): map<Slot, nat> {
    map s | s in values :: |values[s].value.packet|
  }

  ghost function RetainedBytes(values: map<Slot, Indexed>): nat { MapSum(PacketLengths(values)) }

  function CutOf(index: Index, scope: Scope): u64 {
    if scope in index.cuts then index.cuts[scope] else 0
  }

  /** The number an entry was published under. */
  function NumberOf(entry: Indexed): u64 {
    if entry.context.sequence.Some? then entry.context.sequence.value else 0
  }

  /** What the index already holds decides an older or equal number. */
  function Settled(index: Index, op: Insertion): Option<Result<Index>>
    requires op.context.sequence.Some?
  {
    if SlotOf(op) in index.values then
      var held := index.values[SlotOf(op)];
      if op.context.sequence.value < NumberOf(held) then Some(Ok(index)) else
      if op.context.sequence.value > NumberOf(held) then None else
      if held.context == op.context && held.value.expiresAt == op.expiresAt && held.value.tombstone == op.tombstone && held.value.packet == op.packet
      then Some(Ok(index)) else Some(Err(ConflictingValue))
    else if |index.values| == MAX_CURRENT_VALUES then Some(Err(CapacityExhausted))
    else None
  }

  ghost function Fits(index: Index, op: Insertion): bool {
    var prior := if SlotOf(op) in index.values then |index.values[SlotOf(op)].value.packet| else 0;
    prior <= RetainedBytes(index.values) && RetainedBytes(index.values) - prior + |op.packet| <= MAX_PACKET_BYTES
  }

  function Reused(index: Index, op: Insertion): bool {
    exists s :: s in index.values && s != SlotOf(op) && index.values[s].context.id == op.context.id
  }

  function Valid(index: Index, op: Insertion): Option<Error> {
    if op.context.sequence.None? then Some(NoSequence) else
    match Unpack(op.context.workspace, op.context.revision, op.context.topic, op.packet)
    case Err(e) => Some(e)
    case Ok((unpacked, _)) =>
      if op.context != unpacked || op.context.workspace != index.workspace || op.expiresAt == 0 then Some(InvalidValue) else None
  }

  function Stored(index: Index, op: Insertion): Index
    requires CutOf(index, ScopeOf(op)) < U64_MAX
  {
    index.(values := index.values[SlotOf(op) := EntryOf(op)], cuts := index.cuts[ScopeOf(op) := CutOf(index, ScopeOf(op)) + 1])
  }

  /** `insert`. */
  ghost function TryInsert(index: Index, op: Insertion): Result<Index> {
    if Valid(index, op).Some? then Err(Valid(index, op).value) else
    if Settled(index, op).Some? then Settled(index, op).value else
    if Reused(index, op) then Err(IdentityReused) else
    if !Fits(index, op) then Err(CapacityExhausted) else
    if ScopeOf(op) !in index.cuts && |index.cuts| == MAX_CURRENT_SELECTIONS then Err(CapacityExhausted) else
    if CutOf(index, ScopeOf(op)) == U64_MAX then Err(SequenceExhausted) else
    Ok(Stored(index, op))
  }

  // -------------------------------------------------------------- invariants

  /** An entry is stored under its own key and carries its own packet. */
  predicate WellEntry(index: Index, s: Slot, entry: Indexed) {
    && s == Slot(Scope(entry.context.revision, entry.context.topic, entry.selector), entry.value.key)
    && entry.context.workspace == index.workspace && entry.context.sequence.Some? && entry.value.expiresAt != 0
    && (var u := Unpack(index.workspace, entry.context.revision, entry.context.topic, entry.value.packet); u.Ok? && u.value.0 == entry.context)
    && s.scope in index.cuts
  }

  predicate DistinctValueIds(values: map<Slot, Indexed>) {
    forall s, t :: s in values && t in values && s != t ==> values[s].context.id != values[t].context.id
  }

  /** Every index some run of insertions leaves. */
  ghost predicate Sound(index: Index) {
    && (forall s :: s in index.values ==> WellEntry(index, s, index.values[s]))
    && DistinctValueIds(index.values)
    && (forall scope :: scope in index.cuts ==> index.cuts[scope] > 0)
    && |index.values| <= MAX_CURRENT_VALUES && |index.cuts| <= MAX_CURRENT_SELECTIONS
    && RetainedBytes(index.values) <= MAX_PACKET_BYTES
  }

  lemma NewSound(workspace: Id32, authority: Id32, epoch: u64)
    ensures Sound(New(workspace, authority, epoch))
  {
    assert PacketLengths(New(workspace, authority, epoch).values) == map[];
  }

  lemma BytesUpdate(values: map<Slot, Indexed>, s: Slot, entry: Indexed)
    ensures RetainedBytes(values[s := entry])
         == RetainedBytes(values) + |entry.value.packet| - (if s in values then |values[s].value.packet| else 0)
  {
    MapSumUpdate(PacketLengths(values), s, |entry.value.packet|);
    assert PacketLengths(values[s := entry]) == PacketLengths(values)[s := |entry.value.packet|];
  }

  lemma StoredWell(index: Index, op: Insertion, s: Slot)
    requires Sound(index) && Valid(index, op).None? && CutOf(index, ScopeOf(op)) < U64_MAX && s in Stored(index, op).values
    ensures WellEntry(Stored(index, op), s, Stored(index, op).values[s])
  {
    hide Unpack, RetainedBytes, DistinctValueIds;
    if s != SlotOf(op) { assert WellEntry(index, s, index.values[s]); }
  }

  lemma StoredDistinct(index: Index, op: Insertion)
    requires DistinctValueIds(index.values) && !Reused(index, op) && CutOf(index, ScopeOf(op)) < U64_MAX
    ensures DistinctValueIds(Stored(index, op).values)
  {
  }

  lemma StoredEntries(index: Index, op: Insertion)
    requires Sound(index) && Valid(index, op).None? && !Reused(index, op) && CutOf(index, ScopeOf(op)) < U64_MAX
    ensures var next := Stored(index, op);
            && (forall s :: s in next.values ==> WellEntry(next, s, next.values[s])) && DistinctValueIds(next.values)
            && forall scope :: scope in next.cuts ==> next.cuts[scope] > 0
  {
    hide RetainedBytes, WellEntry, DistinctValueIds, Valid, Reused;
    StoredDistinct(index, op);
    forall s | s in Stored(index, op).values ensures WellEntry(Stored(index, op), s, Stored(index, op).values[s]) { StoredWell(index, op, s); }
  }

  /** What an insertion that changes the index has passed. */
  lemma InsertChecked(index: Index, op: Insertion)
    requires TryInsert(index, op).Ok? && TryInsert(index, op).value != index
    ensures Valid(index, op).None? && !Reused(index, op) && Fits(index, op) && CutOf(index, ScopeOf(op)) < U64_MAX
    ensures SlotOf(op) in index.values || |index.values| != MAX_CURRENT_VALUES
    ensures ScopeOf(op) in index.cuts || |index.cuts| != MAX_CURRENT_SELECTIONS
    ensures TryInsert(index, op).value == Stored(index, op)
  {
    hide Unpack, Fits, Reused;
  }

  lemma StoredBounds(index: Index, op: Insertion)
    requires Fits(index, op) && CutOf(index, ScopeOf(op)) < U64_MAX
    requires |index.values| <= MAX_CURRENT_VALUES && (SlotOf(op) in index.values || |index.values| != MAX_CURRENT_VALUES)
    requires |index.cuts| <= MAX_CURRENT_SELECTIONS && (ScopeOf(op) in index.cuts || |index.cuts| != MAX_CURRENT_SELECTIONS)
    ensures var next := Stored(index, op);
            |next.values| <= MAX_CURRENT_VALUES && |next.cuts| <= MAX_CURRENT_SELECTIONS && RetainedBytes(next.values) <= MAX_PACKET_BYTES
  {
    hide RetainedBytes;
    var next := Stored(index, op);
    BytesUpdate(index.values, SlotOf(op), EntryOf(op));
    assert next.values.Keys == index.values.Keys + {SlotOf(op)};
    assert next.cuts.Keys == index.cuts.Keys + {ScopeOf(op)};
  }

  /** Every insertion keeps the index sound. */
  lemma InsertSound(index: Index, op: Insertion)
    requires Sound(index) && TryInsert(index, op).Ok?
    ensures Sound(TryInsert(index, op).value)
  {
    hide RetainedBytes, WellEntry, DistinctValueIds, Reused, TryInsert, Valid, Fits, Stored, SlotOf, ScopeOf;
    if TryInsert(index, op).value != index {
      InsertChecked(index, op);
      StoredEntries(index, op);
      StoredBounds(index, op);
    }
  }

  // ------------------------------------------------- when is a value accepted

  /** A value is valid exactly when its packet is one that carries its own context,
      numbered and of this workspace, and it has an expiry. */
  lemma ValidExactly(index: Index, op: Insertion)
    ensures Valid(index, op).None? <==>
              && op.context.sequence.Some? && op.context.workspace == index.workspace && op.expiresAt != 0
              && exists ciphertext :: Packet(op.context, ciphertext) == Ok(op.packet)
  {
    hide Unpack, Packet;
    var unpacked := Unpack(op.context.workspace, op.context.revision, op.context.topic, op.packet);
    if unpacked.Ok? { PacketOfUnpack(op.context.workspace, op.context.revision, op.context.topic, op.packet); }
    if ciphertext :| Packet(op.context, ciphertext) == Ok(op.packet) { UnpackOfPacket(op.context, ciphertext); }
  }

  /** The key already holds a larger number, or exactly this value. */
  predicate Known(index: Index, op: Insertion) {
    var slot := Slot(Scope(op.context.revision, op.context.topic, op.selector), op.key);
    && slot in index.values && op.context.sequence.Some? && index.values[slot].context.sequence.Some?
    && (index.values[slot].context.sequence.value > op.context.sequence.value
        || index.values[slot] == Indexed(op.context, op.selector, CurrentValue(op.key, op.expiresAt, op.tombstone, op.packet)))
  }

  /** The key is free, or holds a smaller number; no other key has the id; and
      there is room for the value, its packet and its scope. */
  ghost predicate Storable(index: Index, op: Insertion) {
    var scope := Scope(op.context.revision, op.context.topic, op.selector);
    var slot := Slot(scope, op.key);
    && op.context.sequence.Some?
    && (if slot in index.values
        then index.values[slot].context.sequence.Some? && index.values[slot].context.sequence.value < op.context.sequence.value
        else |index.values| < MAX_CURRENT_VALUES)
    && (forall s :: s in index.values && s != slot ==> index.values[s].context.id != op.context.id)
    && RetainedBytes(index.values - {slot}) + |op.packet| <= MAX_PACKET_BYTES
    && (if scope in index.cuts then index.cuts[scope] < U64_MAX else |index.cuts| < MAX_CURRENT_SELECTIONS)
  }

  lemma BytesWithout(values: map<Slot, Indexed>, s: Slot)
    ensures RetainedBytes(values - {s}) == RetainedBytes(values) - (if s in values then |values[s].value.packet| else 0)
  {
    if s in values {
      MapSumTake(PacketLengths(values), s);
      assert PacketLengths(values) - {s} == PacketLengths(values - {s});
    } else {
      assert values - {s} == values;
    }
  }

  /** A valid value is accepted exactly when it is known or can be stored. A known
      one changes nothing; a stored one is what its key holds afterwards, and its
      scope's cut is one higher. */
  lemma InsertExactly(index: Index, op: Insertion)
    requires Sound(index) && Valid(index, op).None?
    ensures TryInsert(index, op).Ok? <==> Known(index, op) || Storable(index, op)
    ensures Known(index, op) ==> TryInsert(index, op) == Ok(index)
    ensures Storable(index, op) ==>
              var scope := Scope(op.context.revision, op.context.topic, op.selector);
              && TryInsert(index, op).Ok?
              && TryInsert(index, op).value.values == index.values[Slot(scope, op.key) := Indexed(op.context, op.selector, CurrentValue(op.key, op.expiresAt, op.tombstone, op.packet))]
              && TryInsert(index, op).value.cuts == index.cuts[scope := (if scope in index.cuts then index.cuts[scope] else 0) + 1]
  {
    hide Unpack, RetainedBytes, DistinctValueIds, Valid;
    ValidSequence(index, op);
    BytesWithout(index.values, SlotOf(op));
    if SlotOf(op) in index.values { assert WellEntry(index, SlotOf(op), index.values[SlotOf(op)]); }
  }

  // --------------------------------------------------- what runs leave behind

  /** An insertion is settled in the index: its key holds exactly it, or
      something published later. */
  predicate Reflects(index: Index, op: Insertion) {
    SlotOf(op) in index.values &&
    (NumberOf(EntryOf(op)) < NumberOf(index.values[SlotOf(op)]) || index.values[SlotOf(op)] == EntryOf(op))
  }

  ghost function Inserted(index: Index, op: Insertion): Index {
    if TryInsert(index, op).Ok? then TryInsert(index, op).value else index
  }

  ghost function InsertedAll(index: Index, ops: seq<Insertion>): Index {
    if ops == [] then index else Inserted(InsertedAll(index, ops[..|ops| - 1]), ops[|ops| - 1])
  }

  /** The k-th insertion of a run was accepted. */
  ghost predicate Accepted(index: Index, ops: seq<Insertion>, k: nat)
    requires k < |ops|
  {
    TryInsert(InsertedAll(index, ops[..k]), ops[k]).Ok?
  }

  /** An insertion either leaves the index alone, or stores a new key or a later
      number under its key. */
  lemma InsertedCases(index: Index, op: Insertion)
    ensures Inserted(index, op) == index ||
            (&& Valid(index, op).None? && op.context.sequence.Some? && CutOf(index, ScopeOf(op)) < U64_MAX && Inserted(index, op) == Stored(index, op)
             && (SlotOf(op) in index.values ==> op.context.sequence.value > NumberOf(index.values[SlotOf(op)])))
  {
    hide Unpack, Fits, Reused;
  }

  lemma InsertedReflects(index: Index, op: Insertion)
    requires Sound(index) && TryInsert(index, op).Ok?
    ensures Reflects(TryInsert(index, op).value, op)
  {
    hide Unpack, RetainedBytes, DistinctValueIds, Reused;
    if SlotOf(op) in index.values { assert WellEntry(index, SlotOf(op), index.values[SlotOf(op)]); }
  }

  /** What is reflected stays reflected; held entries only give way to later ones. */
  lemma ReflectsStays(index: Index, op: Insertion, earlier: Insertion)
    requires Reflects(index, earlier)
    ensures Reflects(Inserted(index, op), earlier)
  {
    hide Valid, Inserted, TryInsert;
    InsertedCases(index, op);
  }

  lemma {:induction false} RunSound(index: Index, ops: seq<Insertion>)
    requires Sound(index)
    ensures Sound(InsertedAll(index, ops))
  {
    hide Sound, TryInsert;
    if ops != [] {
      var front := ops[..|ops| - 1];
      RunSound(index, front);
      if TryInsert(InsertedAll(index, front), ops[|ops| - 1]).Ok? { InsertSound(InsertedAll(index, front), ops[|ops| - 1]); }
    }
  }

  /** Latest value: every accepted insertion is reflected at the end of the run,
      so a key holds the highest-numbered insertion accepted for it. */
  lemma {:induction false} AcceptedReflected(index: Index, ops: seq<Insertion>, k: nat)
    requires Sound(index) && k < |ops| && Accepted(index, ops, k)
    ensures Reflects(InsertedAll(index, ops), ops[k])
  {
    hide Sound, TryInsert, Reflects;
    var n := |ops| - 1;
    var front := ops[..n];
    RunSound(index, front);
    if k == n {
      InsertedReflects(InsertedAll(index, front), ops[k]);
    } else {
      assert front[..k] == ops[..k];
      AcceptedReflected(index, front, k);
      ReflectsStays(InsertedAll(index, front), ops[n], ops[k]);
    }
  }

  /** And every value held was accepted at some point of the run. */
  lemma {:induction false} HeldWasAccepted(index: Index, ops: seq<Insertion>, s: Slot) returns (k: nat)
    requires index.values == map[] && Sound(index) && s in InsertedAll(index, ops).values
    ensures k < |ops| && Accepted(index, ops, k) && SlotOf(ops[k]) == s && EntryOf(ops[k]) == InsertedAll(index, ops).values[s]
  {
    hide Sound, Valid, Reused, Fits;
    k := 0;
    if ops != [] {
      var n := |ops| - 1;
      var front := ops[..n];
      var before := InsertedAll(index, front);
      RunSound(index, front);
      if s in before.values && InsertedAll(index, ops).values[s] == before.values[s] {
        k := HeldWasAccepted(index, front, s);
        assert front[..k] == ops[..k];
      } else {
        k := n;
      }
    }
  }

  /** Order does not matter: two runs of the same insertions, all accepted, leave
      the same values. */
  lemma OrderIrrelevant(index: Index, ops: seq<Insertion>, others: seq<Insertion>)
    requires index.values == map[] && Sound(index)
    requires forall op :: op in ops <==> op in others
    requires forall k :: 0 <= k < |ops| ==> Accepted(index, ops, k)
    requires forall k :: 0 <= k < |others| ==> Accepted(index, others, k)
    ensures InsertedAll(index, ops).values == InsertedAll(index, others).values
  {
    hide Sound, TryInsert, InsertedAll, Accepted;
    forall s ensures s in InsertedAll(index, ops).values ==> s in InsertedAll(index, others).values && InsertedAll(index, ops).values[s] == InsertedAll(index, others).values[s] {
      if s in InsertedAll(index, ops).values { SameHeld(index, ops, others, s); }
    }
    forall s ensures s in InsertedAll(index, others).values ==> s in InsertedAll(index, ops).values {
      if s in InsertedAll(index, others).values { SameHeld(index, others, ops, s); }
    }
  }

  lemma SameHeld(index: Index, ops: seq<Insertion>, others: seq<Insertion>, s: Slot)
    requires index.values == map[] && Sound(index)
    requires forall op :: op in ops <==> op in others
    requires forall k :: 0 <= k < |ops| ==> Accepted(index, ops, k)
    requires forall k :: 0 <= k < |others| ==> Accepted(index, others, k)
    requires s in InsertedAll(index, ops).values
    ensures s in InsertedAll(index, others).values && InsertedAll(index, ops).values[s] == InsertedAll(index, others).values[s]
  {
    hide Sound, TryInsert, InsertedAll, Accepted;
    var k := HeldWasAccepted(index, ops, s);
    assert ops[k] in others;
    var i :| 0 <= i < |others| && others[i] == ops[k];
    AcceptedReflected(index, others, i);
    var j := HeldWasAccepted(index, others, s);
    assert others[j] in ops;
    var l :| 0 <= l < |ops| && ops[l] == others[j];
    AcceptedReflected(index, ops, l);
  }

  // ------------------------------------------------------ the cut of a scope

  /** What a scope serves: its entries by replacement key. */
  function Served(index: Index, scope: Scope): map<Id32, CurrentValue> {
    map s | s in index.values && s.scope == scope :: s.key := index.values[s].value
  }

  /** Replacing an entry by a later one changes the value itself: the number is
      part of the packet. */
  lemma LaterDiffers(index: Index, op: Insertion)
    requires Sound(index) && Valid(index, op).None? && SlotOf(op) in index.values
    requires op.context.sequence.value > NumberOf(index.values[SlotOf(op)])
    ensures EntryOf(op).value != index.values[SlotOf(op)].value
  {
    hide Unpack, RetainedBytes, DistinctValueIds;
    assert WellEntry(index, SlotOf(op), index.values[SlotOf(op)]);
  }

  /** Storing an entry shows in its own scope and in no other. */
  lemma StoredServes(index: Index, op: Insertion, scope: Scope)
    requires CutOf(index, ScopeOf(op)) < U64_MAX
    ensures scope != ScopeOf(op) ==> Served(Stored(index, op), scope) == Served(index, scope)
    ensures scope == ScopeOf(op) ==> op.key in Served(Stored(index, op), scope) && Served(Stored(index, op), scope)[op.key] == EntryOf(op).value
    ensures op.key in Served(index, scope) <==> Slot(scope, op.key) in index.values
    ensures op.key in Served(index, scope) ==> Served(index, scope)[op.key] == index.values[Slot(scope, op.key)].value
  {
    var next := Stored(index, op);
    if scope != ScopeOf(op) { assert Served(next, scope) == Served(index, scope); } else { assert SlotOf(op) in next.values; }
    if Slot(scope, op.key) in index.values { assert Slot(scope, op.key).key in Served(index, scope); }
  }

  /** A scope's cut rises by one exactly when what it serves changes. */
  lemma CutRises(index: Index, op: Insertion, scope: Scope)
    requires Sound(index)
    ensures var next := Inserted(index, op);
            CutOf(next, scope) == CutOf(index, scope) + if Served(next, scope) == Served(index, scope) then 0 else 1
  {
    hide Sound, Valid, Inserted, TryInsert, Served;
    InsertedCases(index, op);
    if Inserted(index, op) != index {
      StoredServes(index, op, scope);
      if scope == ScopeOf(op) && SlotOf(op) in index.values { LaterDiffers(index, op); }
    }
  }

  /** Along a run cuts never fall, and equal cuts mean equal values. */
  lemma {:induction false} EqualCutsEqualValues(index: Index, ops: seq<Insertion>, i: nat, j: nat, scope: Scope)
    requires Sound(index) && i <= j <= |ops|
    ensures var earlier, later := InsertedAll(index, ops[..i]), InsertedAll(index, ops[..j]);
            && CutOf(earlier, scope) <= CutOf(later, scope)
            && (CutOf(earlier, scope) == CutOf(later, scope) ==> Served(earlier, scope) == Served(later, scope))
    decreases j
  {
    hide Sound, Inserted, Served, CutOf;
    if i < j {
      EqualCutsEqualValues(index, ops, i, j - 1, scope);
      RunSound(index, ops[..j - 1]);
      assert ops[..j][..j - 1] == ops[..j - 1];
      CutRises(InsertedAll(index, ops[..j - 1]), ops[j - 1], scope);
    }
  }

  /** An empty scope has cut zero, a served one does not. */
  lemma ServedHasCut(index: Index, scope: Scope)
    requires Sound(index) && Served(index, scope) != map[]
    ensures CutOf(index, scope) > 0
  {
    hide Unpack, RetainedBytes, DistinctValueIds;
    var k :| k in Served(index, scope);
    assert WellEntry(index, Slot(scope, k), index.values[Slot(scope, k)]);
  }

  // ---------------------------------------------------------------- in place

  class CurrentViewIndex {
    const workspace: Id32
    const authority: Id32
    const epoch: u64
    var cuts: map<Scope, u64>
    var values: map<Slot, Indexed>

    function State(): Index
      reads this
    {
      Index(workspace, authority, epoch, cuts, values)
    }

    constructor (workspace: Id32, authority: Id32, epoch: u64)
      ensures State() == New(workspace, authority, epoch)
    {
      this.workspace, this.authority, this.epoch := workspace, authority, epoch;
      cuts, values := map[], map[];
    }

    /** The packets held, added up. */
    method Retained() returns (total: nat)
      ensures total == RetainedBytes(values)
    {
      total := 0;
      var left := values;
      while left != map[]
        invariant total + RetainedBytes(left) == RetainedBytes(values)
        decreases |left|
      {
        var s :| s in left;
        MapSumTake(PacketLengths(left), s);
        assert PacketLengths(left) - {s} == PacketLengths(left - {s});
        assert (left - {s}).Keys == left.Keys - {s};
        total := total + |left[s].value.packet|;
        left := left - {s};
      }
      assert PacketLengths(map[]) == map[];
    }

    /** Add or replace one latest value; a refusal changes nothing, a stale or
        repeated value is accepted and changes nothing. */
    method Insert(op: Insertion) returns (r: Result<()>)
      requires Sound(State())
      modifies this
      ensures Sound(State())
      ensures r.Ok? <==> Valid(old(State()), op).None? && (Known(old(State()), op) || Storable(old(State()), op))
      ensures r.Ok? ==> TryInsert(old(State()), op) == Ok(State()) && Reflects(State(), op)
      ensures r.Err? ==> TryInsert(old(State()), op) == Err(r.error) && State() == old(State())
    {
      hide Unpack, RetainedBytes, WellEntry, DistinctValueIds, Sound, Valid, Reflects, Known, Storable;
      ghost var before := State();
      if Valid(before, op).None? { InsertExactly(before, op); }
      if TryInsert(before, op).Ok? { InsertSound(before, op); InsertedReflects(before, op); }
      var invalid := Valid(State(), op);
      if invalid.Some? { return Err(invalid.value); }
      ValidSequence(before, op);
      var slot, scope := SlotOf(op), ScopeOf(op);
      var settled := Settled(State(), op);
      if settled.Some? {
        if settled.value.Err? { return Err(settled.value.error); }
        return Ok(());
      }
      if Reused(State(), op) { return Err(IdentityReused); }
      var prior := if slot in values then |values[slot].value.packet| else 0;
      var total := Retained();
      if prior > total || total - prior + |op.packet| > MAX_PACKET_BYTES { return Err(CapacityExhausted); }
      if scope !in cuts && |cuts| == MAX_CURRENT_SELECTIONS { return Err(CapacityExhausted); }
      var cut := if scope in cuts then cuts[scope] else 0;
      if cut == U64_MAX { return Err(SequenceExhausted); }
      values := values[slot := EntryOf(op)];
      cuts := cuts[scope := cut + 1];
      r := Ok(());
    }
  }

  lemma ValidSequence(index: Index, op: Insertion)
    requires Valid(index, op).None?
    ensures op.context.sequence.Some?
  {
  }
}
