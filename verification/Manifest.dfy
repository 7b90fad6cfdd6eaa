/** Signed current views: the canonical manifest, the reply that carries it, and
    the reader's verification. Models `entries`, `parse`, `protect`, `verify`,
    `CurrentView` and `view` of crates/arachne-delivery/src/current.rs and the
    statements of crates/arachne-security/src/recovery.rs. */
module Manifest {
  import opened Bytes
  import opened Ordering
  import opened Publication
  import opened Retention
  import opened Current

  const MANIFEST: seq<byte> := [68, 70, 67, 86, 1]
  const TOMBSTONE_MANIFEST: seq<byte> := [68, 70, 67, 86, 2]
  const REPLY: seq<byte> := [68, 70, 86, 82, 1]
  const CONTEXT_DOMAIN: seq<byte> := Ascii("data-fabric/current-view/v1\0")
  const MAX_APPLICATION_PAYLOAD: nat := 12 * 1024
  const MAX_APPLICATION_CONTEXT: nat := 1024
  const SIGNATURE_BYTES: nat := 64

  datatype ViewQuery = ViewQuery(workspace: Id32, authority: Id32, epoch: u64, revision: u64, topic: Topic, selector: Id32)

  function QueryScope(q: ViewQuery): Scope { Scope(q.revision, q.topic, q.selector) }

  function QueryContext(q: ViewQuery): (b: seq<byte>)
    ensures |b| <= 270
  {
    CONTEXT_DOMAIN + q.workspace + q.authority + U64Bytes(q.epoch) + U64Bytes(q.revision) + TopicBytes(q.topic) + q.selector
  }

  /** The signed context determines the whole query. */
  lemma QueryContextInjective(q: ViewQuery, p: ViewQuery)
    requires QueryContext(q) == QueryContext(p)
    ensures q == p
  {
    hide U64Bytes, TopicBytes, TakeU64, TakeTopic;
    ContextRegroup(q);
    ContextRegroup(p);
    ContextRead(q);
    ContextRead(p);
  }

  function Selected(q: ViewQuery): seq<byte> { TopicBytes(q.topic) + q.selector }

  function Versioned(q: ViewQuery): seq<byte> { U64Bytes(q.epoch) + (U64Bytes(q.revision) + Selected(q)) }

  lemma ContextRegroup(q: ViewQuery)
    ensures QueryContext(q) == CONTEXT_DOMAIN + (q.workspace + (q.authority + Versioned(q)))
  {
    hide U64Bytes, TopicBytes, Ascii;
  }

  lemma ContextRead(q: ViewQuery)
    ensures Take(CONTEXT_DOMAIN + (q.workspace + (q.authority + Versioned(q))), |CONTEXT_DOMAIN|) == Ok(Read(CONTEXT_DOMAIN, q.workspace + (q.authority + Versioned(q))))
    ensures Take(q.workspace + (q.authority + Versioned(q)), 32) == Ok(Read(q.workspace, q.authority + Versioned(q)))
    ensures Take(q.authority + Versioned(q), 32) == Ok(Read(q.authority, Versioned(q)))
    ensures TakeU64(Versioned(q)) == Ok(Read(q.epoch, U64Bytes(q.revision) + Selected(q)))
    ensures TakeU64(U64Bytes(q.revision) + Selected(q)) == Ok(Read(q.revision, Selected(q)))
    ensures TakeTopic(Selected(q)) == Ok(Read(q.topic, q.selector))
  {
    hide U64Bytes, TopicBytes, Take, TakeU64, TakeTopic, Selected;
    TakeWritten(CONTEXT_DOMAIN, q.workspace + (q.authority + Versioned(q)));
    TakeWritten(q.workspace, q.authority + Versioned(q));
    TakeWritten(q.authority, Versioned(q));
    U64Written(q.epoch, U64Bytes(q.revision) + Selected(q));
    U64Written(q.revision, Selected(q));
    SelectedRead(q);
  }

  lemma SelectedRead(q: ViewQuery)
    ensures TakeTopic(Selected(q)) == Ok(Read(q.topic, q.selector))
  {
    hide TakeTopic, TopicBytes;
    TopicWritten(q.topic, q.selector);
  }

  /** Hash and signatures, as functions; `valid` is the check against the key of
      the named member. */
  datatype Signer = Signer(hash: seq<byte> -> Id32,
                           signature: (seq<byte>, seq<byte>) -> seq<byte>,
                           valid: (Id32, seq<byte>, seq<byte>, seq<byte>) -> bool)

  /** The authority's own signatures have their fixed size and verify. */
  ghost predicate Signs(signer: Signer, authority: Id32) {
    forall context, body :: |signer.signature(context, body)| == SIGNATURE_BYTES
                            && signer.valid(authority, context, body, signer.signature(context, body))
  }

  // ------------------------------------------------------------------ manifest

  function PacketTotal(values: seq<CurrentValue>): nat {
    if values == [] then 0 else |values[0].packet| + PacketTotal(values[1..])
  }

  predicate CanonicalKeys(values: seq<CurrentValue>) {
    forall i :: 0 < i < |values| ==> Less(values[i - 1].key, values[i].key)
  }

  predicate Tombstones(values: seq<CurrentValue>) {
    exists v :: v in values && v.tombstone
  }

  /** The authenticated context inside a value's packet. */
  function ContextIn(q: ViewQuery, v: CurrentValue): Result<Context> {
    var (c, _) :- Unpack(q.workspace, q.revision, q.topic, v.packet);
    if c.sequence.None? then Err(NoSequence) else Ok(c)
  }

  function TombstoneMark(v: CurrentValue, tombstones: bool): (b: seq<byte>)
    ensures |b| == if tombstones then 1 else 0
  {
    if tombstones then [if v.tombstone then 1 else 0] else []
  }

  function EntryBytes(signer: Signer, v: CurrentValue, c: Context, tombstones: bool): (b: seq<byte>)
    requires c.sequence.Some?
    ensures |b| == if tombstones then 97 else 96
  {
    v.key + c.id + U64Bytes(c.sequence.value) + U64Bytes(v.expiresAt) + TombstoneMark(v, tombstones) + signer.hash(v.packet)
  }

  function EntriesFrom(signer: Signer, q: ViewQuery, values: seq<CurrentValue>, tombstones: bool, ids: set<Id16>): Result<seq<byte>> {
    if values == [] then Ok([]) else
    var c :- ContextIn(q, values[0]);
    if values[0].expiresAt == 0 || c.id in ids then Err(InvalidValue) else
    var rest :- EntriesFrom(signer, q, values[1..], tombstones, ids + {c.id});
    Ok(EntryBytes(signer, values[0], c, tombstones) + rest)
  }

  function ManifestMagic(tombstones: bool): (b: seq<byte>)
    ensures |b| == 5
  {
    if tombstones then TOMBSTONE_MANIFEST else MANIFEST
  }

  /** `entries`. */
  function Entries(signer: Signer, q: ViewQuery, cut: u64, values: seq<CurrentValue>): Result<seq<byte>> {
    if |values| > MAX_CURRENT_VALUES || !CanonicalKeys(values) || PacketTotal(values) > MAX_PACKET_BYTES then Err(ExceedsBound) else
    var body :- EntriesFrom(signer, q, values, Tombstones(values), {});
    Ok(ManifestMagic(Tombstones(values)) + (U64Bytes(cut) + (U16Bytes(|values|) + body)))
  }

  ghost function Prepended(front: seq<byte>, r: Result<seq<byte>>): Result<seq<byte>> {
    if r.Ok? then Ok(front + r.value) else r
  }

  lemma PrependedNothing(r: Result<seq<byte>>)
    ensures Prepended([], r) == r
  {
    if r.Ok? { assert [] + r.value == r.value; }
  }

  lemma PrependedError(front: seq<byte>, r: Result<seq<byte>>)
    ensures r.Err? ==> Prepended(front, r) == r
  {
  }

  lemma PrependedTwice(a: seq<byte>, b: seq<byte>, r: Result<seq<byte>>)
    ensures Prepended(a, Prepended(b, r)) == Prepended(a + b, r)
  {
    if r.Ok? { assert a + (b + r.value) == a + b + r.value; }
  }

  /** The manifest buffer, value by value. */
  method WriteEntries(signer: Signer, q: ViewQuery, cut: u64, values: seq<CurrentValue>) returns (r: Result<seq<byte>>)
    ensures r == Entries(signer, q, cut, values)
  {
    hide ContextIn, EntryBytes, U64Bytes, U16Bytes, Tombstones, PacketTotal, CanonicalKeys, Prepended;
    if |values| > MAX_CURRENT_VALUES || !CanonicalKeys(values) || PacketTotal(values) > MAX_PACKET_BYTES { return Err(ExceedsBound); }
    var tombstones := Tombstones(values);
    var buffer: seq<byte> := [];
    var ids: set<Id16> := {};
    PrependedNothing(EntriesFrom(signer, q, values, tombstones, {}));
    assert values[0..] == values;
    var i := 0;
    while i < |values|
      invariant i <= |values|
      invariant Prepended(buffer, EntriesFrom(signer, q, values[i..], tombstones, ids)) == EntriesFrom(signer, q, values, tombstones, {})
    {
      assert values[i..][0] == values[i] && values[i..][1..] == values[i + 1..];
      var c := ContextIn(q, values[i]);
      PrependedError(buffer, EntriesFrom(signer, q, values[i..], tombstones, ids));
      if c.Err? { return Err(c.error); }
      ContextSequenced(q, values[i]);
      if values[i].expiresAt == 0 || c.value.id in ids { return Err(InvalidValue); }
      var entry := EntryBytes(signer, values[i], c.value, tombstones);
      EntriesUnfold(signer, q, values, i, tombstones, ids);
      ghost var rest := EntriesFrom(signer, q, values[i + 1..], tombstones, ids + {c.value.id});
      PrependedTwice(buffer, entry, rest);
      buffer := buffer + entry;
      ids := ids + {c.value.id};
      i := i + 1;
    }
    NothingLeft(buffer, EntriesFrom(signer, q, values[i..], tombstones, ids));
    r := Ok(ManifestMagic(tombstones) + (U64Bytes(cut) + (U16Bytes(|values|) + buffer)));
  }

  lemma NothingLeft(buffer: seq<byte>, r: Result<seq<byte>>)
    requires r == Ok([])
    ensures Prepended(buffer, r) == Ok(buffer)
  {
    assert buffer + [] == buffer;
  }

  lemma EntriesUnfold(signer: Signer, q: ViewQuery, values: seq<CurrentValue>, i: nat, tombstones: bool, ids: set<Id16>)
    requires i < |values| && ContextIn(q, values[i]).Ok? && values[i].expiresAt != 0 && ContextIn(q, values[i]).value.id !in ids
    ensures var c := ContextIn(q, values[i]).value;
            && c.sequence.Some?
            && EntriesFrom(signer, q, values[i..], tombstones, ids)
            == Prepended(EntryBytes(signer, values[i], c, tombstones), EntriesFrom(signer, q, values[i + 1..], tombstones, ids + {c.id}))
  {
    hide ContextIn, EntryBytes;
    ContextSequenced(q, values[i]);
    assert values[i..][0] == values[i] && values[i..][1..] == values[i + 1..];
  }

  lemma ContextSequenced(q: ViewQuery, v: CurrentValue)
    requires ContextIn(q, v).Ok?
    ensures ContextIn(q, v).value.sequence.Some?
  {
  }

  /** A value fit for a manifest: it never expires at zero, and its packet unpacks
      for the query, with a number. */
  predicate Listable(q: ViewQuery, v: CurrentValue) {
    var u := Unpack(q.workspace, q.revision, q.topic, v.packet);
    v.expiresAt != 0 && u.Ok? && u.value.0.sequence.Some?
  }

  function IdIn(q: ViewQuery, v: CurrentValue): Id16
    requires Listable(q, v)
  {
    Unpack(q.workspace, q.revision, q.topic, v.packet).value.0.id
  }

  ghost predicate AllListable(q: ViewQuery, values: seq<CurrentValue>, ids: set<Id16>) {
    && (forall i :: 0 <= i < |values| ==> Listable(q, values[i]) && IdIn(q, values[i]) !in ids)
    && (forall i, j :: 0 <= i < j < |values| ==> IdIn(q, values[i]) != IdIn(q, values[j]))
  }

  lemma AllListableCons(q: ViewQuery, values: seq<CurrentValue>, ids: set<Id16>)
    requires values != []
    ensures AllListable(q, values, ids) <==>
              Listable(q, values[0]) && IdIn(q, values[0]) !in ids && AllListable(q, values[1..], ids + {IdIn(q, values[0])})
  {
    hide Listable, IdIn;
    var rest := values[1..];
    assert forall i :: 0 <= i < |rest| ==> rest[i] == values[i + 1];
    if Listable(q, values[0]) && IdIn(q, values[0]) !in ids && AllListable(q, rest, ids + {IdIn(q, values[0])}) {
      forall i | 0 <= i < |values| ensures Listable(q, values[i]) && IdIn(q, values[i]) !in ids {
        if i > 0 { assert values[i] == rest[i - 1]; }
      }
      forall i, j | 0 <= i < j < |values| ensures IdIn(q, values[i]) != IdIn(q, values[j]) {
        assert values[j] == rest[j - 1];
        if i > 0 { assert values[i] == rest[i - 1]; }
      }
    }
  }

  lemma {:induction false} EntriesFromExactly(signer: Signer, q: ViewQuery, values: seq<CurrentValue>, tombstones: bool, ids: set<Id16>)
    ensures EntriesFrom(signer, q, values, tombstones, ids).Ok? <==> AllListable(q, values, ids)
    decreases |values|
  {
    hide AllListable, EntryBytes, Unpack;
    if values == [] {
      NothingListed(q, ids);
    } else {
      AllListableCons(q, values, ids);
      if Listable(q, values[0]) { EntriesFromExactly(signer, q, values[1..], tombstones, ids + {IdIn(q, values[0])}); }
    }
  }

  lemma NothingListed(q: ViewQuery, ids: set<Id16>)
    ensures AllListable(q, [], ids)
  {
  }

  /** A manifest is written exactly of at most 64 values in rising key order, within
      the packet bound, each fit for it and no two with one id. */
  lemma EntriesExactly(signer: Signer, q: ViewQuery, cut: u64, values: seq<CurrentValue>)
    ensures Entries(signer, q, cut, values).Ok? <==>
              && |values| <= MAX_CURRENT_VALUES && CanonicalKeys(values) && PacketTotal(values) <= MAX_PACKET_BYTES
              && (forall i :: 0 <= i < |values| ==> Listable(q, values[i]))
              && (forall i, j :: 0 <= i < j < |values| ==> IdIn(q, values[i]) != IdIn(q, values[j]))
  {
    hide EntriesFrom, CanonicalKeys, PacketTotal, Listable, IdIn;
    EntriesFromExactly(signer, q, values, Tombstones(values), {});
  }

  // ------------------------------------------------------------------- parsing

  datatype Entry = Entry(key: Id32, expiresAt: u64, tombstone: bool, digest: Id32)

  function EntrySize(tombstones: bool): nat { if tombstones then 97 else 96 }

  function ParseEntry(chunk: seq<byte>, tombstones: bool): Result<Entry>
    requires |chunk| == EntrySize(tombstones)
  {
    Powers(); NumberBound(chunk[56..64]);
    if tombstones && chunk[64] > 1 then Err(InvalidMarker) else
    Ok(Entry(chunk[..32], Number(chunk[56..64]), tombstones && chunk[64] == 1, chunk[EntrySize(tombstones) - 32..]))
  }

  function ParseEntries(bytes: seq<byte>, tombstones: bool, count: nat): Result<seq<Entry>>
    requires |bytes| == count * EntrySize(tombstones)
    decreases count
  {
    if count == 0 then Ok([]) else
    var size := EntrySize(tombstones);
    var entry :- ParseEntry(bytes[..size], tombstones);
    var rest :- ParseEntries(bytes[size..], tombstones, count - 1);
    Ok([entry] + rest)
  }

  /** `parse`. */
  function Parse(bytes: seq<byte>): Result<(u64, seq<Entry>)> {
    if |bytes| < 15 || (bytes[..5] != MANIFEST && bytes[..5] != TOMBSTONE_MANIFEST) then Err(WrongFormat) else
    var tombstones := bytes[..5] == TOMBSTONE_MANIFEST;
    Powers(); NumberBound(bytes[5..13]);
    var count := Number(bytes[13..15]);
    if count > MAX_CURRENT_VALUES || |bytes[15..]| != count * EntrySize(tombstones) then Err(InvalidLength) else
    var entries :- ParseEntries(bytes[15..], tombstones, count);
    Ok((Number(bytes[5..13]), entries))
  }

  function Described(signer: Signer, v: CurrentValue): Entry { Entry(v.key, v.expiresAt, v.tombstone, signer.hash(v.packet)) }

  function AllDescribed(signer: Signer, values: seq<CurrentValue>): (es: seq<Entry>)
    ensures |es| == |values| && forall i :: 0 <= i < |es| ==> es[i] == Described(signer, values[i])
  {
    seq(|values|, i requires 0 <= i < |values| => Described(signer, values[i]))
  }

  lemma EntryParsed(signer: Signer, v: CurrentValue, c: Context, tombstones: bool)
    requires c.sequence.Some? && (v.tombstone ==> tombstones)
    ensures ParseEntry(EntryBytes(signer, v, c, tombstones), tombstones) == Ok(Described(signer, v))
  {
    var b := EntryBytes(signer, v, c, tombstones);
    assert b[..32] == v.key;
    assert b[56..64] == U64Bytes(v.expiresAt);
    assert tombstones ==> b[64..65] == TombstoneMark(v, tombstones);
    assert b[EntrySize(tombstones) - 32..] == signer.hash(v.packet);
  }

  lemma {:induction false} EntriesParsed(signer: Signer, q: ViewQuery, values: seq<CurrentValue>, tombstones: bool, ids: set<Id16>)
    requires EntriesFrom(signer, q, values, tombstones, ids).Ok? && forall v :: v in values && v.tombstone ==> tombstones
    ensures var body := EntriesFrom(signer, q, values, tombstones, ids).value;
            |body| == |values| * EntrySize(tombstones) && ParseEntries(body, tombstones, |values|) == Ok(AllDescribed(signer, values))
  {
    hide ContextIn, EntryBytes, ParseEntry;
    if values != [] {
      var c := ContextIn(q, values[0]).value;
      ContextSequenced(q, values[0]);
      var entry := EntryBytes(signer, values[0], c, tombstones);
      var rest := EntriesFrom(signer, q, values[1..], tombstones, ids + {c.id}).value;
      EntryParsed(signer, values[0], c, tombstones);
      EntriesParsed(signer, q, values[1..], tombstones, ids + {c.id});
      assert (entry + rest)[..EntrySize(tombstones)] == entry && (entry + rest)[EntrySize(tombstones)..] == rest;
      assert AllDescribed(signer, values) == [Described(signer, values[0])] + AllDescribed(signer, values[1..]);
    }
  }

  lemma FourParts(a: seq<byte>, b: seq<byte>, c: seq<byte>, rest: seq<byte>)
    requires |a| == 5 && |b| == 8 && |c| == 2
    ensures var body := a + (b + (c + rest)); body[..5] == a && body[5..13] == b && body[13..15] == c && body[15..] == rest
  {
  }

  /** Parsing a manifest gives back the cut and the description of every value,
      with or without tombstones. */
  lemma ManifestParsed(signer: Signer, q: ViewQuery, cut: u64, values: seq<CurrentValue>)
    requires Entries(signer, q, cut, values).Ok?
    ensures var body := Entries(signer, q, cut, values).value;
            && |body| <= 15 + 97 * MAX_CURRENT_VALUES && Parse(body) == Ok((cut, AllDescribed(signer, values)))
  {
    hide EntriesFrom, ParseEntries, U64Bytes, U16Bytes, PacketTotal, CanonicalKeys, AllDescribed, Number;
    var tombstones := Tombstones(values);
    EntriesParsed(signer, q, values, tombstones, {});
    var rest := EntriesFrom(signer, q, values, tombstones, {}).value;
    var body := Entries(signer, q, cut, values).value;
    FourParts(ManifestMagic(tombstones), U64Bytes(cut), U16Bytes(|values|), rest);
  }

  // ------------------------------------------------------- protect and verify

  datatype View = View(manifest: seq<byte>, packets: seq<seq<byte>>)

  function Packets(values: seq<CurrentValue>): (ps: seq<seq<byte>>)
    ensures |ps| == |values| && forall i :: 0 <= i < |ps| ==> ps[i] == values[i].packet
  {
    seq(|values|, i requires 0 <= i < |values| => values[i].packet)
  }

  function Lengths(packets: seq<seq<byte>>): nat {
    if packets == [] then 0 else |packets[0]| + Lengths(packets[1..])
  }

  /** `protect`, by an owner who is the queried authority. */
  function Protect(signer: Signer, q: ViewQuery, cut: u64, values: seq<CurrentValue>): Result<View> {
    var body :- Entries(signer, q, cut, values);
    if |QueryContext(q)| > MAX_APPLICATION_CONTEXT || |body| > MAX_APPLICATION_PAYLOAD then Err(ExceedsBound) else
    Ok(View(body + signer.signature(QueryContext(q), body), Packets(values)))
  }

  function Authentic(signer: Signer, q: ViewQuery, manifest: seq<byte>): Result<seq<byte>> {
    if |QueryContext(q)| > MAX_APPLICATION_CONTEXT || !(SIGNATURE_BYTES <= |manifest| <= MAX_APPLICATION_PAYLOAD + SIGNATURE_BYTES) then Err(ExceedsBound) else
    var end := |manifest| - SIGNATURE_BYTES;
    if !signer.valid(q.authority, QueryContext(q), manifest[..end], manifest[end..]) then Err(BadSignature) else Ok(manifest[..end])
  }

  function Rebuilt(entries: seq<Entry>, packets: seq<seq<byte>>): (values: seq<CurrentValue>)
    requires |entries| == |packets|
    ensures |values| == |entries| && forall i :: 0 <= i < |values| ==> values[i] == CurrentValue(entries[i].key, entries[i].expiresAt, entries[i].tombstone, packets[i])
  {
    seq(|entries|, i requires 0 <= i < |entries| => CurrentValue(entries[i].key, entries[i].expiresAt, entries[i].tombstone, packets[i]))
  }

  predicate DigestsMatch(signer: Signer, entries: seq<Entry>, packets: seq<seq<byte>>)
    requires |entries| == |packets|
  {
    forall i :: 0 <= i < |entries| ==> signer.hash(packets[i]) == entries[i].digest
  }

  datatype VerifiedView = VerifiedView(cut: u64, values: seq<CurrentValue>)

  /** `verify`; `current` says the reader is in the queried workspace and epoch. */
  function Verify(signer: Signer, current: bool, q: ViewQuery, view: View): Result<VerifiedView> {
    if !current then Err(NotCurrent) else
    if |view.packets| > MAX_CURRENT_VALUES || Lengths(view.packets) > MAX_PACKET_BYTES || |view.manifest| + Lengths(view.packets) > MAX_REPLY_BYTES
    then Err(ExceedsBound) else
    var body :- Authentic(signer, q, view.manifest);
    var (cut, entries) :- Parse(body);
    if |entries| != |view.packets| then Err(IncompleteResponse) else
    if !DigestsMatch(signer, entries, view.packets) then Err(DigestMismatch) else
    var values := Rebuilt(entries, view.packets);
    var again :- Entries(signer, q, cut, values);
    if again != body then Err(PacketMismatch) else Ok(VerifiedView(cut, values))
  }

  lemma {:induction false} PacketTotalIs(values: seq<CurrentValue>)
    ensures Lengths(Packets(values)) == PacketTotal(values)
  {
    if values != [] {
      assert Packets(values)[1..] == Packets(values[1..]);
      PacketTotalIs(values[1..]);
    }
  }

  /** Manifest inverse: whatever an authority protects, every reader of the same
      query verifies as exactly that cut and those values. */
  lemma VerifyOfProtect(signer: Signer, q: ViewQuery, cut: u64, values: seq<CurrentValue>)
    requires Signs(signer, q.authority) && Protect(signer, q, cut, values).Ok?
    ensures Verify(signer, true, q, Protect(signer, q, cut, values).value) == Ok(VerifiedView(cut, values))
  {
    hide Parse, QueryContext;
    var body := Entries(signer, q, cut, values).value;
    var view := Protect(signer, q, cut, values).value;
    var signature := signer.signature(QueryContext(q), body);
    ManifestParsed(signer, q, cut, values);
    PacketTotalIs(values);
    EntriesBounds(signer, q, cut, values);
    hide Entries;
    assert |signature| == SIGNATURE_BYTES && (body + signature)[..|body|] == body && (body + signature)[|body|..] == signature;
    assert Rebuilt(AllDescribed(signer, values), view.packets) == values;
  }

  lemma EntriesBounds(signer: Signer, q: ViewQuery, cut: u64, values: seq<CurrentValue>)
    requires Entries(signer, q, cut, values).Ok?
    ensures |values| <= MAX_CURRENT_VALUES && CanonicalKeys(values) && PacketTotal(values) <= MAX_PACKET_BYTES
  {
  }

  /** Anything verified re-encodes to the very bytes that were signed. */
  lemma VerifiedReencodes(signer: Signer, current: bool, q: ViewQuery, view: View)
    requires Verify(signer, current, q, view).Ok?
    ensures var v := Verify(signer, current, q, view).value;
            && |view.manifest| >= SIGNATURE_BYTES
            && Entries(signer, q, v.cut, v.values) == Ok(view.manifest[..|view.manifest| - SIGNATURE_BYTES])
            && signer.valid(q.authority, QueryContext(q), view.manifest[..|view.manifest| - SIGNATURE_BYTES], view.manifest[|view.manifest| - SIGNATURE_BYTES..])
            && Packets(v.values) == view.packets && CanonicalKeys(v.values)
  {
    hide Parse, QueryContext;
    var body := view.manifest[..|view.manifest| - SIGNATURE_BYTES];
    var (cut, entries) := Parse(body).value;
    EntriesBounds(signer, q, cut, Rebuilt(entries, view.packets));
    hide Entries;
    assert Packets(Rebuilt(entries, view.packets)) == view.packets;
  }

  /** Verifying, exactly: a view verifies as a cut and values if and only if the
      reader is current, the manifest is that of this cut and these values followed
      by a signature good for the authority and the query, the packets are theirs,
      and all is within the bound. */
  lemma VerifiesExactly(signer: Signer, current: bool, q: ViewQuery, view: View, v: VerifiedView)
    ensures Verify(signer, current, q, view) == Ok(v) <==>
              && current && view.packets == Packets(v.values) && |view.manifest| + Lengths(view.packets) <= MAX_REPLY_BYTES
              && |view.manifest| >= SIGNATURE_BYTES
              && var end := |view.manifest| - SIGNATURE_BYTES;
                 && Entries(signer, q, v.cut, v.values) == Ok(view.manifest[..end])
                 && signer.valid(q.authority, QueryContext(q), view.manifest[..end], view.manifest[end..])
  {
    hide Parse, QueryContext, Entries, Lengths, Rebuilt, DigestsMatch;
    if Verify(signer, current, q, view) == Ok(v) { VerifiedReencodes(signer, current, q, view); }
    if |view.manifest| >= SIGNATURE_BYTES && Entries(signer, q, v.cut, v.values) == Ok(view.manifest[..|view.manifest| - SIGNATURE_BYTES]) && view.packets == Packets(v.values) {
      ManifestParsed(signer, q, v.cut, v.values);
      PacketTotalIs(v.values);
      EntriesBounds(signer, q, v.cut, v.values);
      RebuiltSame(signer, v.values);
    }
  }

  lemma RebuiltSame(signer: Signer, values: seq<CurrentValue>)
    ensures DigestsMatch(signer, AllDescribed(signer, values), Packets(values)) && Rebuilt(AllDescribed(signer, values), Packets(values)) == values
  {
  }

  /** A view whose signature is good for one context only verifies for no more than
      one query. */
  lemma ViewOfOneQuery(signer: Signer, view: View, q: ViewQuery, now: bool, p: ViewQuery, later: bool)
    requires Verify(signer, now, q, view).Ok? && Verify(signer, later, p, view).Ok?
    requires var body, signature := view.manifest[..|view.manifest| - SIGNATURE_BYTES], view.manifest[|view.manifest| - SIGNATURE_BYTES..];
             forall a, b, c, d :: signer.valid(a, c, body, signature) && signer.valid(b, d, body, signature) ==> c == d
    ensures q == p
  {
    hide Verify, Entries, QueryContext, Packets, CanonicalKeys;
    VerifiedReencodes(signer, now, q, view);
    VerifiedReencodes(signer, later, p, view);
    QueryContextInjective(q, p);
  }

  // ------------------------------------------------------------ on the wire

  function PacketsBytes(packets: seq<seq<byte>>): seq<byte> {
    if packets == [] then [] else U32Bytes(|packets[0]|) + (packets[0] + PacketsBytes(packets[1..]))
  }

  /** `CurrentView::to_wire`. */
  function ViewBytes(view: View): Result<seq<byte>> {
    if |view.packets| > MAX_CURRENT_VALUES || |view.manifest| == 0 || |view.manifest| > MAX_APPLICATION_CIPHERTEXT then Err(ExceedsBound) else
    var bytes := REPLY + ([0] + (U32Bytes(|view.manifest|) + (view.manifest + ([|view.packets|] + PacketsBytes(view.packets)))));
    if |bytes| > MAX_REPLY_BYTES then Err(ExceedsBound) else Ok(bytes)
  }

  function ReadPackets(input: seq<byte>, count: nat): Result<Read<seq<seq<byte>>>>
    decreases count
  {
    if count == 0 then Ok(Read([], input)) else
    var length :- TakeU32(input);
    if !(22 <= length.value <= 16 * 1024) then Err(InvalidLength) else
    var packet :- Take(length.rest, length.value);
    var rest :- ReadPackets(packet.rest, count - 1);
    Ok(Read([packet.value] + rest.value, rest.rest))
  }

  /** `CurrentView::from_wire`; None is an advisory denial. */
  function ReadView(bytes: seq<byte>): Result<Option<View>> {
    if |bytes| > MAX_REPLY_BYTES then Err(ExceedsBound) else
    var magic :- Take(bytes, 5);
    if magic.value != REPLY then Err(WrongFormat) else
    var status :- TakeByte(magic.rest);
    if status.value == 1 && status.rest == [] then Ok(None) else
    if status.value != 0 then Err(InvalidMarker) else
    var length :- TakeU32(status.rest);
    if length.value == 0 || length.value > MAX_APPLICATION_CIPHERTEXT then Err(InvalidLength) else
    var manifest :- Take(length.rest, length.value);
    var count :- TakeByte(manifest.rest);
    if count.value > MAX_CURRENT_VALUES then Err(ExceedsBound) else
    var packets :- ReadPackets(count.rest, count.value);
    if packets.rest != [] then Err(Trailing) else Ok(Some(View(manifest.value, packets.value)))
  }

  lemma {:induction false} PacketsReadBack(packets: seq<seq<byte>>)
    requires forall i :: 0 <= i < |packets| ==> 22 <= |packets[i]| <= 16 * 1024
    ensures ReadPackets(PacketsBytes(packets), |packets|) == Ok(Read(packets, []))
  {
    hide U32Bytes, TakeU32, Take;
    if packets != [] {
      PacketsReadBack(packets[1..]);
      U32Written(|packets[0]|, packets[0] + PacketsBytes(packets[1..]));
      TakeWritten(packets[0], PacketsBytes(packets[1..]));
      assert [packets[0]] + packets[1..] == packets;
    }
  }

  /** A written view is read back as itself. */
  lemma ViewReadBack(view: View)
    requires ViewBytes(view).Ok? && forall i :: 0 <= i < |view.packets| ==> 22 <= |view.packets[i]| <= 16 * 1024
    ensures ReadView(ViewBytes(view).value) == Ok(Some(view))
  {
    hide U32Bytes, TakeU32, Take, TakeByte, ReadPackets, PacketsBytes;
    var packets := PacketsBytes(view.packets);
    var count := [|view.packets|] + packets;
    var length := U32Bytes(|view.manifest|) + (view.manifest + count);
    TakeWritten(REPLY, [0] + length);
    ByteWritten(0, length);
    U32Written(|view.manifest|, view.manifest + count);
    TakeWritten(view.manifest, count);
    ByteWritten(|view.packets|, packets);
    PacketsReadBack(view.packets);
  }

  lemma {:induction false} PacketsWere(input: seq<byte>, count: nat)
    requires var r := ReadPackets(input, count); r.Ok? && r.value.rest == []
    ensures var packets := ReadPackets(input, count).value.value;
            |packets| == count && input == PacketsBytes(packets) && forall i :: 0 <= i < |packets| ==> 22 <= |packets[i]| <= 16 * 1024
    decreases count
  {
    hide U32Bytes, TakeU32, Take;
    if count > 0 {
      var length := TakeU32(input).value;
      var packet := Take(length.rest, length.value).value;
      PacketsWere(packet.rest, count - 1);
      var packets := ReadPackets(input, count).value.value;
      assert packets[1..] == ReadPackets(packet.rest, count - 1).value.value;
    }
  }

  /** Reading a reply, exactly: it is read as a view if and only if it is that view's
      own bytes and every packet has a length a packet can have. */
  lemma ReadsExactly(bytes: seq<byte>, view: View)
    ensures ReadView(bytes) == Ok(Some(view)) <==>
              ViewBytes(view) == Ok(bytes) && forall i :: 0 <= i < |view.packets| ==> 22 <= |view.packets[i]| <= 16 * 1024
  {
    hide U32Bytes, TakeU32, Take, TakeByte, ReadPackets, PacketsBytes;
    if ReadView(bytes) == Ok(Some(view)) {
      var magic := Take(bytes, 5).value;
      var status := TakeByte(magic.rest).value;
      var length := TakeU32(status.rest).value;
      var manifest := Take(length.rest, length.value).value;
      var count := TakeByte(manifest.rest).value;
      PacketsWere(count.rest, count.value);
    }
    if ViewBytes(view) == Ok(bytes) && forall i :: 0 <= i < |view.packets| ==> 22 <= |view.packets[i]| <= 16 * 1024 { ViewReadBack(view); }
  }

  /** `verify_wire_reply`. */
  function VerifyReply(signer: Signer, current: bool, q: ViewQuery, bytes: seq<byte>): Result<Option<VerifiedView>> {
    var view :- ReadView(bytes);
    if view.None? then Ok(None) else
    var v :- Verify(signer, current, q, view.value);
    Ok(Some(v))
  }

  // ------------------------------------------------- what an index serves

  /** Keys of a scope in the order the ordered map lists them. */
  function ListedIds(keys: set<Id32>): (r: seq<Id32>)
    ensures Increasing<seq<byte>>(Less, r) && |r| == |keys|
    ensures forall k :: k in r <==> k in keys
  {
    LessIsTotalOrder();
    var r := Ascending<seq<byte>>(Less, keys);
    assert forall i :: 0 <= i < |r| ==> r[i] in keys;
    r
  }

  function InKeyOrder(served: map<Id32, CurrentValue>): (values: seq<CurrentValue>)
    ensures |values| == |served|
  {
    var keys := ListedIds(served.Keys);
    seq(|keys|, i requires 0 <= i < |keys| => assert keys[i] in keys; served[keys[i]])
  }

  function ServedList(index: Index, scope: Scope): (values: seq<CurrentValue>)
    ensures |values| == |Served(index, scope)|
  {
    InKeyOrder(Served(index, scope))
  }

  /** `view` and `to_wire` for an authorised reader. */
  function ServeView(signer: Signer, index: Index, q: ViewQuery): Result<seq<byte>> {
    if (q.workspace, q.authority, q.epoch) != (index.workspace, index.authority, index.epoch) then Err(WrongScope) else
    var view :- Protect(signer, q, CutOf(index, QueryScope(q)), ServedList(index, QueryScope(q)));
    ViewBytes(view)
  }

  /** Served values come in canonical order, each under its own key. */
  lemma ServedListOrdered(index: Index, scope: Scope)
    requires Current.Sound(index)
    ensures var values := ServedList(index, scope);
            && CanonicalKeys(values)
            && (forall i :: 0 <= i < |values| ==> Slot(scope, values[i].key) in index.values && index.values[Slot(scope, values[i].key)].value == values[i])
            && (forall i, j :: 0 <= i < j < |values| ==> values[i].key != values[j].key)
  {
    hide Less, Current.Sound, ServedList, Served, ListedIds;
    var keys := ListedIds(Served(index, scope).Keys);
    var values := ServedList(index, scope);
    forall i | 0 <= i < |values| ensures values[i].key == keys[i] && Slot(scope, keys[i]) in index.values && index.values[Slot(scope, keys[i])].value == values[i] {
      ServedAt(index, scope, i);
    }
    KeysDistinct(keys);
  }

  lemma KeysDistinct(keys: seq<Id32>)
    requires Increasing<seq<byte>>(Less, keys)
    ensures forall i :: 0 < i < |keys| ==> Less(keys[i - 1], keys[i])
    ensures forall i, j :: 0 <= i < j < |keys| ==> keys[i] != keys[j]
  {
    LessIsTotalOrder();
  }

  lemma ServedAt(index: Index, scope: Scope, i: nat)
    requires Current.Sound(index) && i < |ServedList(index, scope)|
    ensures i < |ListedIds(Served(index, scope).Keys)|
    ensures var k := ListedIds(Served(index, scope).Keys)[i];
            && Slot(scope, k) in index.values && ServedList(index, scope)[i] == index.values[Slot(scope, k)].value && ServedList(index, scope)[i].key == k
  {
    hide Unpack, RetainedBytes, DistinctValueIds, Less;
    var keys := ListedIds(Served(index, scope).Keys);
    assert keys[i] in keys;
    assert WellEntry(index, Slot(scope, keys[i]), index.values[Slot(scope, keys[i])]);
  }

  // ---------------------------------------- every sound index can be served

  lemma {:induction false} SlotsWithin(slots: seq<Slot>, values: map<Slot, Indexed>, list: seq<CurrentValue>)
    requires |slots| == |list| && (forall i, j :: 0 <= i < j < |slots| ==> slots[i] != slots[j])
    requires forall i :: 0 <= i < |slots| ==> slots[i] in values && values[slots[i]].value == list[i]
    ensures |list| <= |values| && PacketTotal(list) <= RetainedBytes(values)
    decreases |slots|
  {
    if slots != [] {
      var s, left := slots[0], values - {slots[0]};
      MapSumTake(PacketLengths(values), s);
      assert PacketLengths(values) - {s} == PacketLengths(left);
      assert left.Keys == values.Keys - {s};
      SlotsWithin(slots[1..], left, list[1..]);
    }
  }

  lemma ServedBounded(index: Index, scope: Scope)
    requires Current.Sound(index)
    ensures |ServedList(index, scope)| <= MAX_CURRENT_VALUES && PacketTotal(ServedList(index, scope)) <= MAX_PACKET_BYTES
  {
    hide ServedList, Less, WellEntry, DistinctValueIds, RetainedBytes;
    ServedListOrdered(index, scope);
    var values := ServedList(index, scope);
    SlotsWithin(seq(|values|, i requires 0 <= i < |values| => Slot(scope, values[i].key)), index.values, values);
  }

  /** Values whose packets unpack to different publications can be listed. */
  lemma {:induction false} EntriesListed(signer: Signer, q: ViewQuery, values: seq<CurrentValue>, tombstones: bool, ids: set<Id16>)
    requires forall i :: 0 <= i < |values| ==> values[i].expiresAt != 0 && ContextIn(q, values[i]).Ok? && ContextIn(q, values[i]).value.id !in ids
    requires forall i, j :: 0 <= i < j < |values| ==> ContextIn(q, values[i]).Ok? && ContextIn(q, values[j]).Ok? && ContextIn(q, values[i]).value.id != ContextIn(q, values[j]).value.id
    ensures EntriesFrom(signer, q, values, tombstones, ids).Ok?
  {
    hide ContextIn, EntryBytes;
    if values != [] { EntriesListed(signer, q, values[1..], tombstones, ids + {ContextIn(q, values[0]).value.id}); }
  }

  lemma ServedContext(index: Index, q: ViewQuery, v: CurrentValue)
    requires Current.Sound(index) && q.workspace == index.workspace
    requires Slot(QueryScope(q), v.key) in index.values && index.values[Slot(QueryScope(q), v.key)].value == v
    ensures v.expiresAt != 0 && 22 <= |v.packet| <= 16 * 1024
    ensures ContextIn(q, v) == Ok(index.values[Slot(QueryScope(q), v.key)].context)
  {
    hide RetainedBytes, DistinctValueIds;
    assert WellEntry(index, Slot(QueryScope(q), v.key), index.values[Slot(QueryScope(q), v.key)]);
  }

  lemma ServedEntries(signer: Signer, index: Index, q: ViewQuery)
    requires Current.Sound(index) && q.workspace == index.workspace
    ensures Entries(signer, q, CutOf(index, QueryScope(q)), ServedList(index, QueryScope(q))).Ok?
    ensures forall i :: 0 <= i < |ServedList(index, QueryScope(q))| ==> 22 <= |ServedList(index, QueryScope(q))[i].packet| <= 16 * 1024
  {
    hide ServedList, Less, WellEntry, RetainedBytes, ContextIn, CutOf, EntriesFrom, Tombstones;
    var values := ServedList(index, QueryScope(q));
    ServedListOrdered(index, QueryScope(q));
    ServedBounded(index, QueryScope(q));
    forall i | 0 <= i < |values| ensures values[i].expiresAt != 0 && 22 <= |values[i].packet| <= 16 * 1024
                                         && ContextIn(q, values[i]) == Ok(index.values[Slot(QueryScope(q), values[i].key)].context)
    {
      ServedContext(index, q, values[i]);
    }
    EntriesListed(signer, q, values, Tombstones(values), {});
  }

  lemma {:induction false} PacketsSize(packets: seq<seq<byte>>)
    ensures |PacketsBytes(packets)| == 4 * |packets| + Lengths(packets)
  {
    if packets != [] { PacketsSize(packets[1..]); }
  }

  /** Every reachable index serves every scope, and what it serves verifies on
      any reader as exactly the scope's cut and values, in canonical order. */
  lemma ServedIsVerified(signer: Signer, index: Index, q: ViewQuery)
    requires Current.Sound(index) && Signs(signer, q.authority)
    requires (q.workspace, q.authority, q.epoch) == (index.workspace, index.authority, index.epoch)
    ensures ServeView(signer, index, q).Ok?
    ensures VerifyReply(signer, true, q, ServeView(signer, index, q).value) == Ok(Some(VerifiedView(CutOf(index, QueryScope(q)), ServedList(index, QueryScope(q)))))
  {
    hide ServedList, Current.Sound, CutOf, Entries, Verify, ReadView, QueryContext, Lengths, PacketTotal, PacketsBytes;
    var cut, values := CutOf(index, QueryScope(q)), ServedList(index, QueryScope(q));
    ServedEntries(signer, index, q);
    ManifestParsed(signer, q, cut, values);
    EntriesBounds(signer, q, cut, values);
    VerifyOfProtect(signer, q, cut, values);
    var view := Protect(signer, q, cut, values).value;
    PacketTotalIs(values);
    PacketsSize(view.packets);
    ViewReadBack(view);
  }

  const DENIED: seq<byte> := REPLY + [1]

  /** `serve`: whether the policy admits the reader is an input. */
  function Answer(signer: Signer, index: Index, authorized: bool, q: ViewQuery): Result<seq<byte>> {
    if (q.workspace, q.authority, q.epoch) != (index.workspace, index.authority, index.epoch) || !authorized then Ok(DENIED)
    else ServeView(signer, index, q)
  }

  /** Every request is answered: an admitted one about this very index with what
      verifies as the scope's cut and values, any other with one and the same
      denial, whatever the index holds. */
  lemma AnswerExactly(signer: Signer, index: Index, authorized: bool, q: ViewQuery)
    requires Current.Sound(index) && Signs(signer, q.authority)
    ensures var a := Answer(signer, index, authorized, q);
            var admitted := authorized && q.workspace == index.workspace && q.authority == index.authority && q.epoch == index.epoch;
            && a.Ok? && (a.value == DENIED <==> !admitted)
            && VerifyReply(signer, true, q, a.value)
               == Ok(if admitted then Some(VerifiedView(CutOf(index, QueryScope(q)), ServedList(index, QueryScope(q)))) else None)
  {
    hide ServedList, Current.Sound, CutOf, ServeView, Verify, ReadView;
    DeniedReadBack(signer, q);
    if (q.workspace, q.authority, q.epoch) == (index.workspace, index.authority, index.epoch) { ServedIsVerified(signer, index, q); }
  }

  lemma DeniedReadBack(signer: Signer, q: ViewQuery)
    ensures VerifyReply(signer, true, q, DENIED) == Ok(None)
  {
    hide Take, TakeByte, Verify, ReadPackets;
    TakeWritten(REPLY, [1]);
    assert [1] + [] == [1];
    ByteWritten(1, []);
  }

  /** What is served depends on the scope's values and cut alone. */
  lemma ServedDetermined(signer: Signer, a: Index, b: Index, q: ViewQuery)
    requires (a.workspace, a.authority, a.epoch) == (b.workspace, b.authority, b.epoch)
    requires CutOf(a, QueryScope(q)) == CutOf(b, QueryScope(q)) && Served(a, QueryScope(q)) == Served(b, QueryScope(q))
    ensures ServeView(signer, a, q) == ServeView(signer, b, q)
  {
    hide Served, CutOf, Protect, ViewBytes, InKeyOrder;
  }
}
