/** Saving and restoring the index of latest values. Models `snapshot`, `restore`
    and `validate` of crates/arachne-delivery/src/current.rs. */
module IndexSnapshot {
  import opened Bytes
  import opened Ordering
  import opened Publication
  import opened Retention
  import opened Current

  const INDEX: seq<byte> := [68, 70, 67, 73, 1]
  const TOMBSTONE_INDEX: seq<byte> := [68, 70, 67, 73, 2]

  // --------------------------------------------------- the order of map keys

  predicate ScopeLess(a: Scope, b: Scope) {
    a.revision < b.revision
    || (a.revision == b.revision && (Less(a.topic, b.topic) || (a.topic == b.topic && Less(a.selector, b.selector))))
  }

  predicate SlotLess(a: Slot, b: Slot) {
    ScopeLess(a.scope, b.scope) || (a.scope == b.scope && Less(a.key, b.key))
  }

  lemma ScopeOrder()
    ensures TotalOrder(ScopeLess)
  {
    LessIsTotalOrder();
    hide Less;
  }

  lemma SlotOrder()
    ensures TotalOrder(SlotLess)
  {
    LessIsTotalOrder();
    ScopeOrder();
    hide Less, ScopeLess;
  }

  function Scopes(cuts: map<Scope, u64>): (r: seq<Scope>)
    ensures Increasing(ScopeLess, r) && |r| == |cuts| && forall k :: k in r <==> k in cuts
  {
    ScopeOrder();
    Ascending(ScopeLess, cuts.Keys)
  }

  function Slots(values: map<Slot, Indexed>): (r: seq<Slot>)
    ensures Increasing(SlotLess, r) && |r| == |values| && forall k :: k in r <==> k in values
  {
    SlotOrder();
    Ascending(SlotLess, values.Keys)
  }

  // ------------------------------------------------------------------ writing

  function ScopeBytes(scope: Scope, rest: seq<byte>): seq<byte> {
    U64Bytes(scope.revision) + (TopicBytes(scope.topic) + (scope.selector + rest))
  }

  function CutBytes(scope: Scope, cut: u64, rest: seq<byte>): seq<byte> { ScopeBytes(scope, U64Bytes(cut) + rest) }

  function CutList(scopes: seq<Scope>, cuts: map<Scope, u64>, rest: seq<byte>): seq<byte>
    requires forall k :: k in scopes ==> k in cuts
  {
    if scopes == [] then rest else CutBytes(scopes[0], cuts[scopes[0]], CutList(scopes[1..], cuts, rest))
  }

  /** The mark of a value; the older of the two formats has none. */
  function Mark(tombstone: bool, marked: bool): seq<byte> {
    if marked then [if tombstone then 1 else 0] else []
  }

  function ValueBytes(slot: Slot, v: CurrentValue, marked: bool, rest: seq<byte>): seq<byte> {
    ScopeBytes(slot.scope, slot.key + (U64Bytes(v.expiresAt) + (Mark(v.tombstone, marked) + (U32Bytes(|v.packet|) + (v.packet + rest)))))
  }

  function ValueList(slots: seq<Slot>, values: map<Slot, Indexed>, marked: bool): seq<byte>
    requires forall k :: k in slots ==> k in values
  {
    if slots == [] then [] else ValueBytes(slots[0], values[slots[0]].value, marked, ValueList(slots[1..], values, marked))
  }

  /** A count narrowed to a byte, as `as u8` narrows it. */
  function Count(n: nat): byte { n % 256 }

  function ValueTable(index: Index, marked: bool): seq<byte> { ValueList(Slots(index.values), index.values, marked) }

  function CutTable(index: Index, rest: seq<byte>): seq<byte> { CutList(Scopes(index.cuts), index.cuts, rest) }

  function Tables(index: Index, marked: bool): seq<byte> {
    [Count(|index.cuts|)] + CutTable(index, [Count(|index.values|)] + ValueTable(index, marked))
  }

  function Format(marked: bool): (b: seq<byte>)
    ensures |b| == 5
  {
    if marked then TOMBSTONE_INDEX else INDEX
  }

  /** An index in either format. */
  function Written(index: Index, marked: bool): seq<byte> {
    Format(marked) + (index.workspace + (index.authority + (U64Bytes(index.epoch) + Tables(index, marked))))
  }

  function Encode(index: Index): seq<byte> { Written(index, true) }

  /** `snapshot`; what `validate` demands is what every run keeps. */
  ghost function Snapshot(index: Index): Result<seq<byte>> {
    if !Sound(index) then Err(InvalidValue) else
    if |Encode(index)| > MAX_REPLY_BYTES then Err(ExceedsBound) else Ok(Encode(index))
  }

  // ------------------------------------------------------------------ reading

  function TakeScope(input: seq<byte>): Result<Read<Scope>> {
    var revision :- TakeU64(input);
    var topic :- TakeTopic(revision.rest);
    var selector :- Take(topic.rest, 32);
    Ok(Read(Scope(revision.value, topic.value, selector.value), selector.rest))
  }

  /** The cuts, strictly increasing by key and none of them zero. */
  function ReadCuts(input: seq<byte>, count: nat, cuts: map<Scope, u64>, previous: Option<Scope>): Result<Read<map<Scope, u64>>>
    decreases count
  {
    if count == 0 then Ok(Read(cuts, input)) else
    var scope :- TakeScope(input);
    var cut :- TakeU64(scope.rest);
    if cut.value == 0 || (previous.Some? && !ScopeLess(previous.value, scope.value)) || scope.value in cuts then Err(Noncanonical) else
    ReadCuts(cut.rest, count - 1, cuts[scope.value := cut.value], Some(scope.value))
  }

  function TakeMark(input: seq<byte>, tombstones: bool): Result<Read<bool>> {
    if !tombstones then Ok(Read(false, input)) else
    var mark :- TakeByte(input);
    if mark.value > 1 then Err(InvalidMarker) else Ok(Read(mark.value == 1, mark.rest))
  }

  function TakeValue(workspace: Id32, tombstones: bool, input: seq<byte>): Result<Read<(Slot, Indexed)>> {
    var scope :- TakeScope(input);
    var key :- Take(scope.rest, 32);
    var expires :- TakeU64(key.rest);
    var mark :- TakeMark(expires.rest, tombstones);
    var length :- TakeU32(mark.rest);
    var packet :- Take(length.rest, length.value);
    var (context, _) :- Unpack(workspace, scope.value.revision, scope.value.topic, packet.value);
    Ok(Read((Slot(scope.value, key.value), Indexed(context, scope.value.selector, CurrentValue(key.value, expires.value, mark.value, packet.value))), packet.rest))
  }

  function ReadValues(workspace: Id32, tombstones: bool, input: seq<byte>, count: nat, values: map<Slot, Indexed>, previous: Option<Slot>): Result<Read<map<Slot, Indexed>>>
    decreases count
  {
    if count == 0 then Ok(Read(values, input)) else
    var v :- TakeValue(workspace, tombstones, input);
    if (previous.Some? && !SlotLess(previous.value, v.value.0)) || v.value.0 in values then Err(Noncanonical) else
    ReadValues(workspace, tombstones, v.rest, count - 1, values[v.value.0 := v.value.1], Some(v.value.0))
  }

  /** Everything between the owner and the final validation. */
  function ReadTables(workspace: Id32, tombstones: bool, input: seq<byte>): Result<Read<(map<Scope, u64>, map<Slot, Indexed>)>> {
    var cutCount :- TakeByte(input);
    if cutCount.value > MAX_CURRENT_SELECTIONS then Err(CapacityExhausted) else
    var cuts :- ReadCuts(cutCount.rest, cutCount.value, map[], None);
    var valueCount :- TakeByte(cuts.rest);
    if valueCount.value > MAX_CURRENT_VALUES then Err(CapacityExhausted) else
    var values :- ReadValues(workspace, tombstones, valueCount.rest, valueCount.value, map[], None);
    Ok(Read((cuts.value, values.value), values.rest))
  }

  function TakeOwner(workspace: Id32, authority: Id32, epoch: u64, bytes: seq<byte>): Result<Read<bool>> {
    var format :- Take(bytes, 5);
    if format.value != INDEX && format.value != TOMBSTONE_INDEX then Err(WrongScope) else
    var w :- Take(format.rest, 32);
    if w.value != workspace then Err(WrongScope) else
    var a :- Take(w.rest, 32);
    if a.value != authority then Err(WrongScope) else
    var e :- TakeU64(a.rest);
    if e.value != epoch then Err(WrongScope) else Ok(Read(format.value == TOMBSTONE_INDEX, e.rest))
  }

  /** `restore`. */
  ghost function Restore(workspace: Id32, authority: Id32, epoch: u64, bytes: seq<byte>): Result<Index> {
    if |bytes| > MAX_REPLY_BYTES then Err(ExceedsBound) else
    var owner :- TakeOwner(workspace, authority, epoch, bytes);
    var tables :- ReadTables(workspace, owner.value, owner.rest);
    if tables.rest != [] then Err(Trailing) else
    var index := Index(workspace, authority, epoch, tables.value.0, tables.value.1);
    if Sound(index) then Ok(index) else Err(InvalidValue)
  }

  // --------------------------------------------------------------- round trip

  lemma ScopeWritten(scope: Scope, rest: seq<byte>)
    ensures TakeScope(ScopeBytes(scope, rest)) == Ok(Read(scope, rest))
  {
    hide U64Bytes, TakeU64, TopicBytes, TakeTopic, Take;
    U64Written(scope.revision, TopicBytes(scope.topic) + (scope.selector + rest));
    TopicWritten(scope.topic, scope.selector + rest);
    TakeWritten(scope.selector, rest);
  }

  ghost function Of<K, V>(m: map<K, V>, keys: seq<K>): map<K, V> { map k | k in keys && k in m :: m[k] }

  lemma OfWhole<K, V>(m: map<K, V>, keys: seq<K>)
    requires forall k :: k in keys <==> k in m
    ensures Of(m, keys) == m
  {
  }

  lemma OfNext<K, V>(m: map<K, V>, keys: seq<K>, i: nat)
    requires i < |keys| && keys[i] in m && forall j :: 0 <= j < i ==> keys[j] != keys[i]
    ensures keys[i] !in Of(m, keys[..i]) && Of(m, keys[..i + 1]) == Of(m, keys[..i])[keys[i] := m[keys[i]]]
  {
    assert keys[..i + 1] == keys[..i] + [keys[i]];
  }

  ghost function Before<K>(keys: seq<K>, i: nat): Option<K>
    requires i <= |keys|
  {
    if i == 0 then None else Some(keys[i - 1])
  }

  lemma {:induction false} CutsWritten(scopes: seq<Scope>, cuts: map<Scope, u64>, i: nat, rest: seq<byte>)
    requires i <= |scopes| && Increasing(ScopeLess, scopes) && forall k :: k in scopes ==> k in cuts && cuts[k] > 0
    ensures ReadCuts(CutList(scopes[i..], cuts, rest), |scopes| - i, Of(cuts, scopes[..i]), Before(scopes, i)) == Ok(Read(Of(cuts, scopes), rest))
    decreases |scopes| - i
  {
    hide TakeScope, ScopeBytes, TakeU64, U64Bytes, ScopeLess, Increasing, TotalOrder, Of;
    if i < |scopes| {
      var k, after := scopes[i], CutList(scopes[i + 1..], cuts, rest);
      assert scopes[i..][0] == k && scopes[i..][1..] == scopes[i + 1..];
      ScopeWritten(k, U64Bytes(cuts[k]) + after);
      U64Written(cuts[k], after);
      ScopeOrder();
      IncreasingApart(ScopeLess, scopes, i);
      OfNext(cuts, scopes, i);
      CutsWritten(scopes, cuts, i + 1, rest);
    } else {
      assert scopes[..i] == scopes;
    }
  }

  lemma MarkWritten(tombstone: bool, marked: bool, rest: seq<byte>)
    requires tombstone ==> marked
    ensures TakeMark(Mark(tombstone, marked) + rest, marked) == Ok(Read(tombstone, rest))
  {
    if marked { ByteWritten(Mark(tombstone, true)[0], rest); } else { assert [] + rest == rest; }
  }

  /** The format can say which values are tombstones. */
  predicate Expressible(values: map<Slot, Indexed>, marked: bool) {
    forall s :: s in values && values[s].value.tombstone ==> marked
  }

  lemma ValueWritten(index: Index, slot: Slot, marked: bool, rest: seq<byte>)
    requires Sound(index) && slot in index.values && Expressible(index.values, marked)
    ensures TakeValue(index.workspace, marked, ValueBytes(slot, index.values[slot].value, marked, rest)) == Ok(Read((slot, index.values[slot]), rest))
  {
    hide U64Bytes, TakeU64, U32Bytes, TakeU32, TakeScope, ScopeBytes, Take, TakeMark, Unpack, RetainedBytes, DistinctValueIds, Mark;
    var v := index.values[slot].value;
    assert WellEntry(index, slot, index.values[slot]);
    PacketFits(index, slot);
    var body := v.packet + rest;
    var length := U32Bytes(|v.packet|) + body;
    var mark := Mark(v.tombstone, marked) + length;
    var expires := U64Bytes(v.expiresAt) + mark;
    ScopeWritten(slot.scope, slot.key + expires);
    TakeWritten(slot.key, expires);
    U64Written(v.expiresAt, mark);
    MarkWritten(v.tombstone, marked, length);
    U32Written(|v.packet|, body);
    TakeWritten(v.packet, rest);
  }

  lemma PacketFits(index: Index, slot: Slot)
    requires Sound(index) && slot in index.values
    ensures |index.values[slot].value.packet| <= MAX_PACKET_BYTES
  {
    MapSumTake(PacketLengths(index.values), slot);
  }

  lemma {:induction false} ValuesWritten(index: Index, marked: bool, slots: seq<Slot>, i: nat)
    requires Sound(index) && Expressible(index.values, marked) && i <= |slots| && Increasing(SlotLess, slots) && forall k :: k in slots ==> k in index.values
    ensures ReadValues(index.workspace, marked, ValueList(slots[i..], index.values, marked), |slots| - i, Of(index.values, slots[..i]), Before(slots, i)) == Ok(Read(Of(index.values, slots), []))
    decreases |slots| - i
  {
    hide TakeValue, ValueBytes, SlotLess, Sound, Increasing, TotalOrder, Of, Expressible;
    if i < |slots| {
      var k := slots[i];
      assert slots[i..][0] == k && slots[i..][1..] == slots[i + 1..];
      ValueWritten(index, k, marked, ValueList(slots[i + 1..], index.values, marked));
      SlotOrder();
      IncreasingApart(SlotLess, slots, i);
      OfNext(index.values, slots, i);
      ValuesWritten(index, marked, slots, i + 1);
    } else {
      assert slots[..i] == slots;
    }
  }

  lemma CutTableWritten(index: Index, rest: seq<byte>)
    requires Sound(index)
    ensures ReadCuts(CutTable(index, rest), |index.cuts|, map[], None) == Ok(Read(index.cuts, rest))
  {
    hide ReadCuts, CutList, WellEntry, DistinctValueIds, RetainedBytes, Scopes, ScopeLess;
    var scopes := Scopes(index.cuts);
    CutsWritten(scopes, index.cuts, 0, rest);
    assert scopes[0..] == scopes && Of(index.cuts, scopes[..0]) == map[];
    OfWhole(index.cuts, scopes);
  }

  lemma ValueTableWritten(index: Index, marked: bool)
    requires Sound(index) && Expressible(index.values, marked)
    ensures ReadValues(index.workspace, marked, ValueTable(index, marked), |index.values|, map[], None) == Ok(Read(index.values, []))
  {
    hide ReadValues, ValueList, Sound, Slots, SlotLess, Expressible;
    var slots := Slots(index.values);
    ValuesWritten(index, marked, slots, 0);
    assert slots[0..] == slots && Of(index.values, slots[..0]) == map[];
    OfWhole(index.values, slots);
  }

  lemma TablesWritten(index: Index, marked: bool)
    requires Sound(index) && Expressible(index.values, marked)
    ensures ReadTables(index.workspace, marked, Tables(index, marked)) == Ok(Read((index.cuts, index.values), []))
  {
    hide ReadCuts, ReadValues, CutTable, ValueTable, TakeByte, WellEntry, DistinctValueIds, RetainedBytes, Expressible;
    var rest := [|index.values|] + ValueTable(index, marked);
    ByteWritten(|index.cuts|, CutTable(index, rest));
    CutTableWritten(index, rest);
    ByteWritten(|index.values|, ValueTable(index, marked));
    ValueTableWritten(index, marked);
  }

  lemma OwnerWritten(index: Index, marked: bool)
    ensures TakeOwner(index.workspace, index.authority, index.epoch, Written(index, marked)) == Ok(Read(marked, Tables(index, marked)))
  {
    hide Tables, U64Bytes, TakeU64, Take;
    var tables := Tables(index, marked);
    var epoch := U64Bytes(index.epoch) + tables;
    TakeWritten(Format(marked), index.workspace + (index.authority + epoch));
    TakeWritten(index.workspace, index.authority + epoch);
    TakeWritten(index.authority, epoch);
    U64Written(index.epoch, tables);
    assert INDEX[4] != TOMBSTONE_INDEX[4];
  }

  lemma WrittenIsRestored(index: Index, marked: bool)
    requires Sound(index) && Expressible(index.values, marked) && |Written(index, marked)| <= MAX_REPLY_BYTES
    ensures Restore(index.workspace, index.authority, index.epoch, Written(index, marked)) == Ok(index)
  {
    hide ReadTables, Tables, Sound, TakeOwner, Written, Expressible;
    OwnerWritten(index, marked);
    TablesWritten(index, marked);
  }

  /** Whatever index is saved is restored exactly: cuts, values and their
      contexts, tombstones included. */
  lemma RoundTrip(index: Index)
    requires Snapshot(index).Ok?
    ensures Restore(index.workspace, index.authority, index.epoch, Snapshot(index).value) == Ok(index)
  {
    hide Restore, Sound, Written;
    WrittenIsRestored(index, true);
  }

  /** Only bytes saved for this owner restore, and only to an index some run
      could have left; bytes of another workspace, authority or epoch do not. */
  lemma RestoredIsOwned(index: Index, workspace: Id32, authority: Id32, epoch: u64)
    requires Snapshot(index).Ok?
    ensures Restore(workspace, authority, epoch, Snapshot(index).value).Ok? <==> (workspace, authority, epoch) == (index.workspace, index.authority, index.epoch)
  {
    hide ReadTables, Tables, Sound, U64Bytes, TakeU64, Take;
    RoundTrip(index);
    var tables := Tables(index, true);
    var rest := U64Bytes(index.epoch) + tables;
    TakeWritten(TOMBSTONE_INDEX, index.workspace + (index.authority + rest));
    TakeWritten(index.workspace, index.authority + rest);
    TakeWritten(index.authority, rest);
    U64Written(index.epoch, tables);
  }

  // ------------------------------------------------------- whatever was read

  lemma ScopeWas(input: seq<byte>)
    requires TakeScope(input).Ok?
    ensures input == ScopeBytes(TakeScope(input).value.value, TakeScope(input).value.rest)
  {
    hide U64Bytes, TakeU64, TopicBytes, TakeTopic, Take;
  }

  /** Every key is at or before the last one read. */
  ghost predicate UpTo<K(!new)>(less: (K, K) -> bool, keys: set<K>, previous: Option<K>) {
    forall k :: k in keys ==> previous.Some? && (k == previous.value || less(k, previous.value))
  }

  lemma UpToNext<K(!new)>(less: (K, K) -> bool, keys: set<K>, previous: Option<K>, next: K)
    requires TotalOrder(less) && UpTo(less, keys, previous) && (previous.Some? ==> less(previous.value, next))
    ensures next !in keys && UpTo(less, keys + {next}, Some(next))
  {
  }

  /** A list one longer at the front. */
  lemma IncreasingCons<K(!new)>(less: (K, K) -> bool, first: K, rest: seq<K>)
    requires Increasing(less, rest) && forall k :: k in rest ==> less(first, k)
    ensures Increasing(less, [first] + rest)
  {
  }

  lemma {:induction false} CutsWere(input: seq<byte>, count: nat, cuts: map<Scope, u64>, previous: Option<Scope>) returns (scopes: seq<Scope>)
    requires UpTo(ScopeLess, cuts.Keys, previous) && ReadCuts(input, count, cuts, previous).Ok?
    ensures var end := ReadCuts(input, count, cuts, previous).value;
            && |scopes| == count && Increasing(ScopeLess, scopes) && (forall k :: k in scopes ==> previous.Some? ==> ScopeLess(previous.value, k))
            && (forall k :: k in end.value <==> k in cuts || k in scopes) && (forall k :: k in cuts ==> end.value[k] == cuts[k])
            && input == CutList(scopes, end.value, end.rest)
    decreases count
  {
    hide TakeScope, ScopeBytes, TakeU64, U64Bytes, ScopeLess;
    if count == 0 { scopes := []; } else {
      ScopeOrder();
      ScopeWas(input);
      var scope := TakeScope(input).value;
      var cut := TakeU64(scope.rest).value;
      UpToNext(ScopeLess, cuts.Keys, previous, scope.value);
      assert cuts[scope.value := cut.value].Keys == cuts.Keys + {scope.value};
      var rest := CutsWere(cut.rest, count - 1, cuts[scope.value := cut.value], Some(scope.value));
      IncreasingCons(ScopeLess, scope.value, rest);
      scopes := [scope.value] + rest;
      assert scopes[1..] == rest;
      hide UpTo, Increasing;
    }
  }

  lemma ValueWas(workspace: Id32, marked: bool, input: seq<byte>)
    requires TakeValue(workspace, marked, input).Ok?
    ensures var read := TakeValue(workspace, marked, input).value;
            input == ValueBytes(read.value.0, read.value.1.value, marked, read.rest) && (read.value.1.value.tombstone ==> marked)
  {
    hide U64Bytes, TakeU64, U32Bytes, TakeU32, TakeScope, ScopeBytes, Take, Unpack, TakeMark;
    ScopeWas(input);
    var scope := TakeScope(input).value;
    var key := Take(scope.rest, 32).value;
    var expires := TakeU64(key.rest).value;
    MarkWas(marked, expires.rest);
  }

  lemma MarkWas(marked: bool, input: seq<byte>)
    requires TakeMark(input, marked).Ok?
    ensures var read := TakeMark(input, marked).value; input == Mark(read.value, marked) + read.rest && (read.value ==> marked)
  {
    hide TakeByte;
    if !marked { assert [] + input == input; }
  }

  lemma {:induction false} ValuesWere(workspace: Id32, marked: bool, input: seq<byte>, count: nat, values: map<Slot, Indexed>, previous: Option<Slot>) returns (slots: seq<Slot>)
    requires UpTo(SlotLess, values.Keys, previous) && Expressible(values, marked)
    requires var end := ReadValues(workspace, marked, input, count, values, previous); end.Ok? && end.value.rest == []
    ensures var end := ReadValues(workspace, marked, input, count, values, previous).value;
            && |slots| == count && Increasing(SlotLess, slots) && (forall k :: k in slots ==> previous.Some? ==> SlotLess(previous.value, k))
            && (forall k :: k in end.value <==> k in values || k in slots) && (forall k :: k in values ==> end.value[k] == values[k])
            && Expressible(end.value, marked) && input == ValueList(slots, end.value, marked)
    decreases count
  {
    hide TakeValue, ValueBytes, SlotLess;
    if count == 0 { slots := []; } else {
      SlotOrder();
      ValueWas(workspace, marked, input);
      var v := TakeValue(workspace, marked, input).value;
      UpToNext(SlotLess, values.Keys, previous, v.value.0);
      assert values[v.value.0 := v.value.1].Keys == values.Keys + {v.value.0};
      var rest := ValuesWere(workspace, marked, v.rest, count - 1, values[v.value.0 := v.value.1], Some(v.value.0));
      IncreasingCons(SlotLess, v.value.0, rest);
      slots := [v.value.0] + rest;
      assert slots[1..] == rest;
      hide UpTo, Increasing, Expressible;
    }
  }

  lemma CutTableWas(input: seq<byte>, count: nat)
    requires ReadCuts(input, count, map[], None).Ok?
    ensures var end := ReadCuts(input, count, map[], None).value; count == |end.value| && input == CutList(Scopes(end.value), end.value, end.rest)
  {
    hide ReadCuts, CutList, ScopeLess, Scopes;
    var scopes := CutsWere(input, count, map[], None);
    ScopeOrder();
    IncreasingUnique(ScopeLess, scopes, Scopes(ReadCuts(input, count, map[], None).value.value));
  }

  lemma ValueTableWas(workspace: Id32, marked: bool, input: seq<byte>, count: nat)
    requires var end := ReadValues(workspace, marked, input, count, map[], None); end.Ok? && end.value.rest == []
    ensures var values := ReadValues(workspace, marked, input, count, map[], None).value.value;
            count == |values| && Expressible(values, marked) && input == ValueList(Slots(values), values, marked)
  {
    hide ReadValues, ValueList, SlotLess, Slots;
    var slots := ValuesWere(workspace, marked, input, count, map[], None);
    SlotOrder();
    IncreasingUnique(SlotLess, slots, Slots(ReadValues(workspace, marked, input, count, map[], None).value.value));
  }

  lemma TablesWere(workspace: Id32, authority: Id32, epoch: u64, marked: bool, input: seq<byte>)
    requires var t := ReadTables(workspace, marked, input); t.Ok? && t.value.rest == []
    ensures var t := ReadTables(workspace, marked, input).value.value;
            Expressible(t.1, marked) && input == Tables(Index(workspace, authority, epoch, t.0, t.1), marked)
  {
    hide ReadCuts, ReadValues, TakeByte, CutList, ValueList, Expressible, Scopes, Slots, Count;
    var cutCount := TakeByte(input).value;
    CutTableWas(cutCount.rest, cutCount.value);
    CountSmall(cutCount.value);
    var cuts := ReadCuts(cutCount.rest, cutCount.value, map[], None).value;
    var valueCount := TakeByte(cuts.rest).value;
    ValueTableWas(workspace, marked, valueCount.rest, valueCount.value);
    CountSmall(valueCount.value);
    var values := ReadValues(workspace, marked, valueCount.rest, valueCount.value, map[], None).value;
    var index := Index(workspace, authority, epoch, cuts.value, values.value);
    assert cuts.rest == [Count(|values.value|)] + ValueTable(index, marked);
    assert cutCount.rest == CutTable(index, cuts.rest);
  }

  lemma CountSmall(n: byte)
    ensures Count(n) == n
  {
  }

  lemma OwnerWas(workspace: Id32, authority: Id32, epoch: u64, bytes: seq<byte>)
    requires TakeOwner(workspace, authority, epoch, bytes).Ok?
    ensures var owner := TakeOwner(workspace, authority, epoch, bytes).value;
            bytes == Format(owner.value) + (workspace + (authority + (U64Bytes(epoch) + owner.rest)))
  {
    hide U64Bytes, TakeU64, Take;
  }

  /** Restoring, exactly: bytes are restored to an index if and only if it is of
      this owner, is one that runs keep, and the bytes are its own, in the format
      with marks or, if it has no tombstones, in the one without, and within the
      bound. */
  lemma RestoresExactly(workspace: Id32, authority: Id32, epoch: u64, bytes: seq<byte>, index: Index)
    ensures Restore(workspace, authority, epoch, bytes) == Ok(index) <==>
              && (index.workspace, index.authority, index.epoch) == (workspace, authority, epoch) && Sound(index) && |bytes| <= MAX_REPLY_BYTES
              && exists marked :: Expressible(index.values, marked) && bytes == Written(index, marked)
  {
    hide TakeOwner, ReadTables, Sound, Expressible, Tables, Format, U64Bytes;
    if Restore(workspace, authority, epoch, bytes) == Ok(index) {
      OwnerWas(workspace, authority, epoch, bytes);
      var owner := TakeOwner(workspace, authority, epoch, bytes).value;
      TablesWere(workspace, authority, epoch, owner.value, owner.rest);
      assert Expressible(index.values, owner.value) && bytes == Written(index, owner.value);
    }
    hide Written, Restore;
    if marked :| Expressible(index.values, marked) && bytes == Written(index, marked) {
      if (index.workspace, index.authority, index.epoch) == (workspace, authority, epoch) && Sound(index) && |bytes| <= MAX_REPLY_BYTES { WrittenIsRestored(index, marked); }
    }
  }

  /** Every index a run of insertions reaches is saved, unless the bytes are too
      many; and then it is restored as itself. */
  lemma ReachedIsRestored(workspace: Id32, authority: Id32, epoch: u64, ops: seq<Insertion>)
    ensures var index := InsertedAll(New(workspace, authority, epoch), ops);
            && (Snapshot(index).Ok? <==> |Encode(index)| <= MAX_REPLY_BYTES)
            && (Snapshot(index).Ok? ==> Restore(index.workspace, index.authority, index.epoch, Snapshot(index).value) == Ok(index))
  {
    hide Sound, Encode, Restore, InsertedAll;
    NewSound(workspace, authority, epoch);
    Current.RunSound(New(workspace, authority, epoch), ops);
    var index := InsertedAll(New(workspace, authority, epoch), ops);
    if Snapshot(index).Ok? { RoundTrip(index); }
  }

  // ------------------------------------------------------------- in a loop

  /** What the loop of `validate` asks of one entry, read against its key. */
  predicate EntryPasses(index: Index, s: Slot, entry: Indexed) {
    var unpacked := Unpack(index.workspace, entry.context.revision, s.scope.topic, entry.value.packet);
    && unpacked.Ok? && unpacked.value.0 == entry.context && entry.context.sequence.Some?
    && entry.context.revision == s.scope.revision && entry.selector == s.scope.selector && entry.value.key == s.key
    && entry.value.expiresAt != 0 && Scope(entry.context.revision, s.scope.topic, s.scope.selector) in index.cuts
  }

  lemma EntryPassesIsWell(index: Index, s: Slot, entry: Indexed)
    ensures EntryPasses(index, s, entry) <==> WellEntry(index, s, entry)
  {
  }

  /** The loop: one entry after the other, against a growing set of ids. */
  method CheckEntries(index: Index, slots: seq<Slot>) returns (ok: bool)
    requires Increasing(SlotLess, slots) && forall k :: k in slots <==> k in index.values
    ensures ok <==> (forall s :: s in index.values ==> WellEntry(index, s, index.values[s])) && DistinctValueIds(index.values)
  {
    hide WellEntry, EntryPasses, SlotLess, DistinctValueIds, IdsOf;
    NoIds(index.values, slots[..0]);
    var ids: set<Id16> := {};
    for i := 0 to |slots|
      invariant forall k :: 0 <= k < i ==> WellEntry(index, slots[k], index.values[slots[k]])
      invariant IdsOf(index.values, slots[..i], ids)
    {
      var s := slots[i];
      assert s in slots && slots[..i + 1] == slots[..i] + [s];
      var entry := index.values[s];
      EntryPassesIsWell(index, s, entry);
      if !EntryPasses(index, s, entry) { return false; }
      if entry.context.id in ids {
        RepeatedId(slots, i, index.values, ids);
        return false;
      }
      IdAdded(index.values, slots[..i], ids, s);
      ids := ids + {entry.context.id};
    }
    assert slots[..|slots|] == slots;
    AllListed(slots, index.values, ids);
    ok := true;
  }

  /** The ids of these entries, no two of them equal. */
  ghost predicate IdsOf(values: map<Slot, Indexed>, slots: seq<Slot>, ids: set<Id16>) {
    && (forall k :: k in slots ==> k in values && values[k].context.id in ids)
    && (forall id :: id in ids ==> exists k :: 0 <= k < |slots| && slots[k] in values && values[slots[k]].context.id == id)
    && (forall k, l :: 0 <= k < l < |slots| ==> slots[k] in values && slots[l] in values && values[slots[k]].context.id != values[slots[l]].context.id)
  }

  lemma NoIds(values: map<Slot, Indexed>, slots: seq<Slot>)
    requires slots == []
    ensures IdsOf(values, slots, {})
  {
  }

  lemma IdAdded(values: map<Slot, Indexed>, slots: seq<Slot>, ids: set<Id16>, s: Slot)
    requires IdsOf(values, slots, ids) && s in values && values[s].context.id !in ids
    ensures IdsOf(values, slots + [s], ids + {values[s].context.id})
  {
    var more := slots + [s];
    forall id | id in ids + {values[s].context.id} ensures exists k :: 0 <= k < |more| && more[k] in values && values[more[k]].context.id == id {
      if id in ids {
        var k :| 0 <= k < |slots| && slots[k] in values && values[slots[k]].context.id == id;
        assert more[k] == slots[k];
      } else {
        assert more[|slots|] == s;
      }
    }
    forall k, l | 0 <= k < l < |more| ensures more[k] in values && more[l] in values && values[more[k]].context.id != values[more[l]].context.id {
      assert more[k] == slots[k] && slots[k] in slots;
    }
  }

  /** `validate`: the bounds, the cuts and the entries; the first failure ends it.
      What passes is exactly the invariant that every run of insertions keeps. */
  method Validate(index: CurrentViewIndex) returns (ok: bool)
    ensures ok == Sound(index.State())
  {
    hide WellEntry, RetainedBytes, DistinctValueIds, SlotLess, Slots;
    var total := index.Retained();
    if |index.cuts| > MAX_CURRENT_SELECTIONS || |index.values| > MAX_CURRENT_VALUES || total > MAX_PACKET_BYTES { return false; }
    if exists scope :: scope in index.cuts && index.cuts[scope] == 0 { return false; }
    ok := CheckEntries(index.State(), Slots(index.values));
  }

  lemma RepeatedId(slots: seq<Slot>, i: nat, values: map<Slot, Indexed>, ids: set<Id16>)
    requires i < |slots| && Increasing(SlotLess, slots) && (forall k :: k in slots ==> k in values)
    requires IdsOf(values, slots[..i], ids) && values[slots[i]].context.id in ids
    ensures !DistinctValueIds(values)
  {
    var k :| 0 <= k < i && values[slots[..i][k]].context.id == values[slots[i]].context.id;
    SlotOrder();
    hide SlotLess;
    assert SlotLess(slots[k], slots[i]);
  }

  lemma AllListed(slots: seq<Slot>, values: map<Slot, Indexed>, ids: set<Id16>)
    requires (forall k :: k in slots <==> k in values) && IdsOf(values, slots, ids)
    ensures DistinctValueIds(values)
    ensures forall s :: s in values ==> exists k :: 0 <= k < |slots| && slots[k] == s
  {
    forall s, t | s in values && t in values && s != t ensures values[s].context.id != values[t].context.id {
      var k :| 0 <= k < |slots| && slots[k] == s;
      var l :| 0 <= l < |slots| && slots[l] == t;
    }
  }

  lemma CutListSplit(scopes: seq<Scope>, i: nat, cuts: map<Scope, u64>, rest: seq<byte>)
    requires i < |scopes| && forall k :: k in scopes ==> k in cuts
    ensures CutList(scopes[i..], cuts, rest) == CutBytes(scopes[i], cuts[scopes[i]], []) + CutList(scopes[i + 1..], cuts, rest)
  {
    assert scopes[i..][1..] == scopes[i + 1..];
    var after := CutList(scopes[i + 1..], cuts, rest);
    ScopeBytesSplit(scopes[i], U64Bytes(cuts[scopes[i]]), after);
    assert U64Bytes(cuts[scopes[i]]) + [] == U64Bytes(cuts[scopes[i]]);
  }

  lemma ScopeBytesSplit(scope: Scope, a: seq<byte>, b: seq<byte>)
    ensures ScopeBytes(scope, a + b) == ScopeBytes(scope, a) + b
  {
  }

  lemma ValueBytesSplit(slot: Slot, v: CurrentValue, rest: seq<byte>)
    ensures ValueBytes(slot, v, true, rest) == ValueBytes(slot, v, true, []) + rest
  {
    hide ScopeBytes, U64Bytes, U32Bytes, Mark;
    var a, b, c := U64Bytes(v.expiresAt), Mark(v.tombstone, true), U32Bytes(|v.packet|);
    var body := slot.key + (a + (b + (c + (v.packet + []))));
    ScopeBytesSplit(slot.scope, body, rest);
    assert slot.key + (a + (b + (c + (v.packet + rest)))) == body + rest;
  }

  lemma ValueListSplit(slots: seq<Slot>, i: nat, values: map<Slot, Indexed>)
    requires i < |slots| && forall k :: k in slots ==> k in values
    ensures ValueList(slots[i..], values, true) == ValueBytes(slots[i], values[slots[i]].value, true, []) + ValueList(slots[i + 1..], values, true)
  {
    hide ValueBytes;
    assert slots[i..][1..] == slots[i + 1..];
    ValueBytesSplit(slots[i], values[slots[i]].value, ValueList(slots[i + 1..], values, true));
  }

  method WriteCuts(front: seq<byte>, scopes: seq<Scope>, cuts: map<Scope, u64>) returns (bytes: seq<byte>)
    requires forall k :: k in scopes ==> k in cuts
    ensures forall rest :: bytes + rest == front + CutList(scopes, cuts, rest)
  {
    hide CutList, CutBytes;
    bytes := front;
    assert scopes[0..] == scopes;
    for i := 0 to |scopes|
      invariant forall rest :: bytes + CutList(scopes[i..], cuts, rest) == front + CutList(scopes, cuts, rest)
    {
      forall rest ensures bytes + CutBytes(scopes[i], cuts[scopes[i]], []) + CutList(scopes[i + 1..], cuts, rest) == front + CutList(scopes, cuts, rest) {
        CutListSplit(scopes, i, cuts, rest);
        assert bytes + CutList(scopes[i..], cuts, rest) == front + CutList(scopes, cuts, rest);
      }
      bytes := bytes + CutBytes(scopes[i], cuts[scopes[i]], []);
    }
    forall rest ensures bytes + rest == front + CutList(scopes, cuts, rest) {
      NoCutsLeft(scopes[|scopes|..], cuts, rest);
    }
  }

  method WriteValues(front: seq<byte>, slots: seq<Slot>, values: map<Slot, Indexed>) returns (bytes: seq<byte>)
    requires forall k :: k in slots ==> k in values
    ensures bytes == front + ValueList(slots, values, true)
  {
    hide ValueList, ValueBytes;
    bytes := front;
    assert slots[0..] == slots;
    for i := 0 to |slots|
      invariant bytes + ValueList(slots[i..], values, true) == front + ValueList(slots, values, true)
    {
      ValueListSplit(slots, i, values);
      bytes := bytes + ValueBytes(slots[i], values[slots[i]].value, true, []);
    }
    NoValuesLeft(slots[|slots|..], values);
  }

  /** The buffer the source extends cut by cut and value by value. */
  method WriteSnapshot(index: CurrentViewIndex) returns (r: Result<seq<byte>>)
    ensures r == Snapshot(index.State())
  {
    hide Sound, CutList, ValueList, U64Bytes, Scopes, Slots, Count;
    var ok := Validate(index);
    if !ok { return Err(InvalidValue); }
    var front := TOMBSTONE_INDEX + (index.workspace + (index.authority + (U64Bytes(index.epoch) + [Count(|index.cuts|)])));
    var cuts := WriteCuts(front, Scopes(index.cuts), index.cuts);
    var bytes := WriteValues(cuts + [Count(|index.values|)], Slots(index.values), index.values);
    WrittenWhole(index.State(), front, cuts, bytes);
    r := if |bytes| > MAX_REPLY_BYTES then Err(ExceedsBound) else Ok(bytes);
  }

  lemma WrittenWhole(index: Index, front: seq<byte>, cuts: seq<byte>, bytes: seq<byte>)
    requires front == TOMBSTONE_INDEX + (index.workspace + (index.authority + (U64Bytes(index.epoch) + [Count(|index.cuts|)])))
    requires forall rest :: cuts + rest == front + CutTable(index, rest)
    requires bytes == cuts + [Count(|index.values|)] + ValueTable(index, true)
    ensures bytes == Encode(index)
  {
    hide CutTable, ValueTable, U64Bytes, Count;
    var rest := [Count(|index.values|)] + ValueTable(index, true);
    assert bytes == cuts + rest == front + CutTable(index, rest);
  }

  lemma NoCutsLeft(scopes: seq<Scope>, cuts: map<Scope, u64>, rest: seq<byte>)
    requires scopes == []
    ensures CutList(scopes, cuts, rest) == rest
  {
  }

  lemma NoValuesLeft(slots: seq<Slot>, values: map<Slot, Indexed>)
    requires slots == []
    ensures ValueList(slots, values, true) == []
  {
  }

  method LoadCuts(input: seq<byte>, count: nat) returns (r: Result<Read<map<Scope, u64>>>)
    ensures r == ReadCuts(input, count, map[], None)
  {
    hide TakeScope, TakeU64, ScopeLess;
    var cursor, cuts, previous := input, map[], None;
    for i := 0 to count
      invariant ReadCuts(cursor, count - i, cuts, previous) == ReadCuts(input, count, map[], None)
    {
      var scope :- TakeScope(cursor);
      var cut :- TakeU64(scope.rest);
      if cut.value == 0 || (previous.Some? && !ScopeLess(previous.value, scope.value)) || scope.value in cuts { return Err(Noncanonical); }
      cursor, cuts, previous := cut.rest, cuts[scope.value := cut.value], Some(scope.value);
    }
    r := Ok(Read(cuts, cursor));
  }

  method LoadValues(workspace: Id32, tombstones: bool, input: seq<byte>, count: nat) returns (r: Result<Read<map<Slot, Indexed>>>)
    ensures r == ReadValues(workspace, tombstones, input, count, map[], None)
  {
    hide TakeValue, SlotLess;
    var cursor, values, previous := input, map[], None;
    for i := 0 to count
      invariant ReadValues(workspace, tombstones, cursor, count - i, values, previous) == ReadValues(workspace, tombstones, input, count, map[], None)
    {
      var v :- TakeValue(workspace, tombstones, cursor);
      if (previous.Some? && !SlotLess(previous.value, v.value.0)) || v.value.0 in values { return Err(Noncanonical); }
      cursor, values, previous := v.rest, values[v.value.0 := v.value.1], Some(v.value.0);
    }
    r := Ok(Read(values, cursor));
  }

  /** The cursor the source advances through a saved index. */
  method ReadSnapshot(workspace: Id32, authority: Id32, epoch: u64, bytes: seq<byte>) returns (r: Result<CurrentViewIndex>)
    ensures r.Ok? ==> Restore(workspace, authority, epoch, bytes) == Ok(r.value.State()) && fresh(r.value)
    ensures r.Err? ==> Restore(workspace, authority, epoch, bytes) == Err(r.error)
  {
    hide Sound, TakeOwner, ReadCuts, ReadValues, TakeByte;
    if |bytes| > MAX_REPLY_BYTES { return Err(ExceedsBound); }
    var owner :- TakeOwner(workspace, authority, epoch, bytes);
    var cutCount :- TakeByte(owner.rest);
    if cutCount.value > MAX_CURRENT_SELECTIONS { return Err(CapacityExhausted); }
    var cuts :- LoadCuts(cutCount.rest, cutCount.value);
    var valueCount :- TakeByte(cuts.rest);
    if valueCount.value > MAX_CURRENT_VALUES { return Err(CapacityExhausted); }
    var values :- LoadValues(workspace, owner.value, valueCount.rest, valueCount.value);
    if values.rest != [] { return Err(Trailing); }
    var index := new CurrentViewIndex(workspace, authority, epoch);
    index.cuts, index.values := cuts.value, values.value;
    var ok := Validate(index);
    r := if ok then Ok(index) else Err(InvalidValue);
  }
}
