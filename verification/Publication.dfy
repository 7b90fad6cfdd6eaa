/** Routing metadata of a publication and the byte strings it is authenticated
    under. Models crates/arachne-routing/src/publication.rs, and the live-current
    form of crates/arachne-delivery/src/current.rs. */
module Publication {
  import opened Bytes
  import opened Ordering

  function Ascii(s: string): (b: seq<byte>)
    ensures |b| == |s|
  {
    seq(|s|, i requires 0 <= i < |s| => s[i] as int % 256)
  }

  // ------------------------------------------------------------------- topics

  const SLASH: byte := 47

  predicate TopicByte(b: byte) {
    48 <= b <= 57 || 65 <= b <= 90 || 97 <= b <= 122 || b == SLASH || b == 45 || b == 95 || b == 46
  }

  /** The alphabet holds and no two separators touch. */
  predicate PathText(t: seq<byte>) {
    t == [] || (TopicByte(t[0]) && (|t| > 1 && t[0] == SLASH ==> t[1] != SLASH) && PathText(t[1..]))
  }

  /** Nonempty, at most 128 bytes, no empty path segment, a fixed alphabet. */
  predicate ValidTopic(t: seq<byte>) {
    0 < |t| <= 128 && t[0] != SLASH && t[|t| - 1] != SLASH && PathText(t)
  }

  type Topic = t: seq<byte> | ValidTopic(t) witness [97]

  /** A length byte and the topic; reading it back validates it. */
  function TopicBytes(t: Topic): (b: seq<byte>)
    ensures |b| == 1 + |t|
  {
    [|t|] + t
  }

  function TakeTopic(input: seq<byte>): (r: Result<Read<Topic>>)
    ensures r.Ok? ==> TopicBytes(r.value.value) + r.value.rest == input
  {
    var length :- TakeByte(input);
    var text :- Take(length.rest, length.value);
    if !ValidTopic(text.value) then Err(InvalidTopic) else
    var topic: Topic := text.value;
    assert [|topic|] + (topic + text.rest) == TopicBytes(topic) + text.rest;
    Ok(Read(topic, text.rest))
  }

  lemma TopicWritten(t: Topic, rest: seq<byte>)
    ensures TakeTopic(TopicBytes(t) + rest) == Ok(Read(t, rest))
  {
    assert TopicBytes(t) + rest == [|t|] + (t + rest);
    ByteWritten(|t|, t + rest);
    TakeWritten(t, rest);
  }

  // ------------------------------------------------------------------ context

  datatype Context = Context(workspace: Id32, revision: u64, topic: Topic, id: Id16, sequence: Option<nonzero>)

  const PLAIN_V1: seq<byte> := Ascii("data-fabric/publication/v1\0")
  const PLAIN_V2: seq<byte> := Ascii("data-fabric/publication/v2\0")
  const DIRECT: seq<byte> := Ascii("data-fabric/direct-publication/v1\0")
  const LIVE_V1: seq<byte> := Ascii("data-fabric/live-current/v1\0")
  const LIVE_V2: seq<byte> := Ascii("data-fabric/live-current/v2\0")

  function SequenceTail(sequence: Option<nonzero>): seq<byte> {
    if sequence.Some? then U64Bytes(sequence.value) else []
  }

  function PlainDomain(sequence: Option<nonzero>): seq<byte> {
    if sequence.Some? then PLAIN_V2 else PLAIN_V1
  }

  /** `authenticated_bytes`. */
  function AuthenticatedBytes(c: Context): (b: seq<byte>)
    ensures |b| == 84 + |c.topic| + (if c.sequence.Some? then 8 else 0)
  {
    PlainDomain(c.sequence) + c.workspace + U64Bytes(c.revision) + TopicBytes(c.topic) + c.id + SequenceTail(c.sequence)
  }

  predicate CanonicalRecipients(recipients: seq<Id32>) {
    && 0 < |recipients| <= 64
    && forall i :: 0 < i < |recipients| ==> Less(recipients[i - 1], recipients[i])
  }

  function Concatenated(ids: seq<Id32>): (b: seq<byte>)
    ensures |b| == 32 * |ids|
  {
    if ids == [] then [] else ids[0] + Concatenated(ids[1..])
  }

  /** `direct_authenticated_bytes`. */
  function DirectBytes(c: Context, recipients: seq<Id32>): Result<seq<byte>> {
    if !CanonicalRecipients(recipients) then Err(InvalidRecipients) else
    Ok(DIRECT + AuthenticatedBytes(c) + [|recipients|] + Concatenated(recipients))
  }

  /** The buffer the source extends recipient by recipient. */
  method DirectAuthenticatedBytes(c: Context, recipients: seq<Id32>) returns (r: Result<seq<byte>>)
    ensures r == DirectBytes(c, recipients)
  {
    if !CanonicalRecipients(recipients) { return Err(InvalidRecipients); }
    var bytes: seq<byte> := DIRECT + AuthenticatedBytes(c) + [|recipients|];
    for i := 0 to |recipients|
      invariant DirectBytes(c, recipients) == Ok(bytes + Concatenated(recipients[i..]))
    {
      assert recipients[i..][1..] == recipients[i + 1..];
      assert bytes + Concatenated(recipients[i..]) == bytes + recipients[i] + Concatenated(recipients[i + 1..]);
      bytes := bytes + recipients[i];
    }
    assert bytes + Concatenated(recipients[|recipients|..]) == bytes;
    r := Ok(bytes);
  }

  datatype CurrentMetadata = CurrentMetadata(selector: Id32, replacementKey: Id32, expiresAt: u64, tombstone: bool)

  function LiveDomain(tombstone: bool): seq<byte> {
    if tombstone then LIVE_V2 else LIVE_V1
  }

  /** `CurrentMetadata::authenticated_context`. */
  function LiveBytes(m: CurrentMetadata, c: Context): seq<byte> {
    LiveDomain(m.tombstone) + AuthenticatedBytes(c) + m.selector + m.replacementKey + U64Bytes(m.expiresAt)
      + (if m.tombstone then [1] else [])
  }

  // ------------------------------------------------------------ unambiguity

  /** Equal strings with equally long fronts agree on both parts. */
  lemma SameFront(a: seq<byte>, b: seq<byte>, x: seq<byte>, y: seq<byte>)
    requires a + x == b + y && |a| == |b|
    ensures a == b && x == y
  {
    assert a == (a + x)[..|a|] == (b + y)[..|b|] == b;
    assert x == (a + x)[|a|..] == (b + y)[|b|..] == y;
  }

  lemma DomainsDiffer()
    ensures |PLAIN_V1| == |PLAIN_V2| == 27 && PLAIN_V1 != PLAIN_V2
    ensures |LIVE_V1| == |LIVE_V2| == 28 && LIVE_V1 != LIVE_V2
    ensures |DIRECT| == 34
    ensures PLAIN_V1[12] == PLAIN_V2[12] == 112 && DIRECT[12] == 100 && LIVE_V1[12] == LIVE_V2[12] == 108
  {
    assert PLAIN_V1[25] == 49 && PLAIN_V2[25] == 50;
    assert LIVE_V1[26] == 49 && LIVE_V2[26] == 50;
  }

  function AfterDomain(c: Context, rest: seq<byte>): seq<byte> {
    c.workspace + (U64Bytes(c.revision) + (TopicBytes(c.topic) + (c.id + (SequenceTail(c.sequence) + rest))))
  }

  lemma Regroup(c: Context, rest: seq<byte>)
    ensures AuthenticatedBytes(c) + rest == PlainDomain(c.sequence) + AfterDomain(c, rest)
  {
    hide U64Bytes, TopicBytes, PlainDomain, SequenceTail;
  }

  /** The plain form is self-delimiting: no context's bytes, whatever follows,
      can be read as another context's bytes. */
  lemma PlainSelfDelimiting(c: Context, d: Context, x: seq<byte>, y: seq<byte>)
    requires AuthenticatedBytes(c) + x == AuthenticatedBytes(d) + y
    ensures c == d && x == y
  {
    Regroup(c, x); Regroup(d, y); DomainsDiffer();
    SameFront(PlainDomain(c.sequence), PlainDomain(d.sequence), AfterDomain(c, x), AfterDomain(d, y));
    var cTail := c.id + (SequenceTail(c.sequence) + x);
    var dTail := d.id + (SequenceTail(d.sequence) + y);
    SameFront(c.workspace, d.workspace, U64Bytes(c.revision) + (TopicBytes(c.topic) + cTail), U64Bytes(d.revision) + (TopicBytes(d.topic) + dTail));
    SameFront(U64Bytes(c.revision), U64Bytes(d.revision), TopicBytes(c.topic) + cTail, TopicBytes(d.topic) + dTail);
    TopicWritten(c.topic, cTail); TopicWritten(d.topic, dTail);
    SameFront(c.id, d.id, SequenceTail(c.sequence) + x, SequenceTail(d.sequence) + y);
    SameFront(SequenceTail(c.sequence), SequenceTail(d.sequence), x, y);
  }

  lemma PlainInjective(c: Context, d: Context)
    requires AuthenticatedBytes(c) == AuthenticatedBytes(d)
    ensures c == d
  {
    PlainSelfDelimiting(c, d, [], []);
  }

  lemma {:induction false} ConcatenatedInjective(a: seq<Id32>, b: seq<Id32>)
    requires Concatenated(a) == Concatenated(b)
    ensures a == b
  {
    if a != [] && b != [] {
      SameFront(a[0], b[0], Concatenated(a[1..]), Concatenated(b[1..]));
      ConcatenatedInjective(a[1..], b[1..]);
    }
  }

  lemma DirectInjective(c: Context, d: Context, to: seq<Id32>, other: seq<Id32>)
    requires DirectBytes(c, to).Ok? && DirectBytes(c, to) == DirectBytes(d, other)
    ensures c == d && to == other
  {
    hide AuthenticatedBytes, Concatenated;
    var x := [|to|] + Concatenated(to);
    var y := [|other|] + Concatenated(other);
    assert DirectBytes(c, to).value == DIRECT + (AuthenticatedBytes(c) + x);
    assert DirectBytes(d, other).value == DIRECT + (AuthenticatedBytes(d) + y);
    SameFront(DIRECT, DIRECT, AuthenticatedBytes(c) + x, AuthenticatedBytes(d) + y);
    PlainSelfDelimiting(c, d, x, y);
    SameFront([|to|], [|other|], Concatenated(to), Concatenated(other));
    ConcatenatedInjective(to, other);
  }

  function LiveTail(m: CurrentMetadata): seq<byte> {
    m.selector + (m.replacementKey + (U64Bytes(m.expiresAt) + (if m.tombstone then [1] else [])))
  }

  lemma LiveRegroup(m: CurrentMetadata, c: Context)
    ensures LiveBytes(m, c) == LiveDomain(m.tombstone) + (AuthenticatedBytes(c) + LiveTail(m))
  {
    hide U64Bytes, AuthenticatedBytes, LiveDomain;
  }

  lemma LiveTailInjective(m: CurrentMetadata, n: CurrentMetadata)
    requires LiveTail(m) == LiveTail(n)
    ensures m == n
  {
    assert |LiveTail(m)| == 72 + (if m.tombstone then 1 else 0);
    assert LiveTail(m)[..32] == m.selector && LiveTail(n)[..32] == n.selector;
    assert LiveTail(m)[32..64] == m.replacementKey && LiveTail(n)[32..64] == n.replacementKey;
    assert LiveTail(m)[64..72] == U64Bytes(m.expiresAt) && LiveTail(n)[64..72] == U64Bytes(n.expiresAt);
  }

  lemma LiveInjective(m: CurrentMetadata, c: Context, n: CurrentMetadata, d: Context)
    requires LiveBytes(m, c) == LiveBytes(n, d)
    ensures m == n && c == d
  {
    DomainsDiffer(); LiveRegroup(m, c); LiveRegroup(n, d);
    SameFront(LiveDomain(m.tombstone), LiveDomain(n.tombstone), AuthenticatedBytes(c) + LiveTail(m), AuthenticatedBytes(d) + LiveTail(n));
    PlainSelfDelimiting(c, d, LiveTail(m), LiveTail(n));
    LiveTailInjective(m, n);
  }

  /** No string is authenticated under two of the three forms. */
  lemma FormsDisjoint(c: Context, d: Context, to: seq<Id32>, m: CurrentMetadata, e: Context)
    ensures DirectBytes(d, to) != Ok(AuthenticatedBytes(c))
    ensures LiveBytes(m, e) != AuthenticatedBytes(c)
    ensures DirectBytes(d, to) != Ok(LiveBytes(m, e))
  {
    DomainsDiffer();
    assert AuthenticatedBytes(c)[12] == 112;
    assert LiveBytes(m, e)[12] == 108;
    assert DirectBytes(d, to).Ok? ==> DirectBytes(d, to).value[12] == 100;
  }

  // ------------------------------------------------------------------- packet

  const MAX_PACKET: nat := 16 * 1024
  const PACKET_V1: seq<byte> := [68, 70, 65, 80, 1]
  const PACKET_V2: seq<byte> := [68, 70, 65, 80, 2]

  function Packet(c: Context, ciphertext: seq<byte>): Result<seq<byte>> {
    var header := if c.sequence.Some? then 29 else 21;
    if |ciphertext| == 0 || |ciphertext| > MAX_PACKET - header then Err(ExceedsBound) else
    Ok((if c.sequence.Some? then PACKET_V2 else PACKET_V1) + c.id + SequenceTail(c.sequence) + ciphertext)
  }

  function Unpack(workspace: Id32, revision: u64, topic: Topic, packet: seq<byte>): Result<(Context, seq<byte>)> {
    if !(22 <= |packet| <= MAX_PACKET) then Err(InvalidPacket) else
    if packet[..5] == PACKET_V1 then
      Ok((Context(workspace, revision, topic, packet[5..21], None), packet[21..]))
    else if packet[..5] == PACKET_V2 && |packet| >= 30 then
      var number := Number(packet[21..29]);
      Powers(); NumberBound(packet[21..29]);
      if number == 0 then Err(ZeroSequence) else
      Ok((Context(workspace, revision, topic, packet[5..21], Some(number)), packet[29..]))
    else Err(InvalidPacket)
  }

  /** A packet the sender could build is read back as exactly what it carries. */
  lemma UnpackOfPacket(c: Context, ciphertext: seq<byte>)
    requires Packet(c, ciphertext).Ok?
    ensures Unpack(c.workspace, c.revision, c.topic, Packet(c, ciphertext).value) == Ok((c, ciphertext))
  {
    var p := Packet(c, ciphertext).value;
    assert p[5..21] == c.id;
    if c.sequence.Some? {
      assert p[..5] == PACKET_V2;
      assert p[21..29] == U64Bytes(c.sequence.value);
      assert p[29..] == ciphertext;
    } else {
      assert p[..5] == PACKET_V1;
      assert p[21..] == ciphertext;
    }
  }

  /** Anything that unpacks is the one packet of what it unpacks to. */
  lemma PacketOfUnpack(workspace: Id32, revision: u64, topic: Topic, packet: seq<byte>)
    requires Unpack(workspace, revision, topic, packet).Ok?
    ensures var (c, ciphertext) := Unpack(workspace, revision, topic, packet).value;
            && c.workspace == workspace && c.revision == revision && c.topic == topic
            && Packet(c, ciphertext) == Ok(packet)
  {
    var (c, ciphertext) := Unpack(workspace, revision, topic, packet).value;
    if c.sequence.Some? {
      NumberInjective(packet[21..29], U64Bytes(c.sequence.value));
      assert packet == packet[..5] + packet[5..21] + packet[21..29] + packet[29..];
    } else {
      assert packet == packet[..5] + packet[5..21] + [] + packet[21..];
    }
  }
}
