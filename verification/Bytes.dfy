/** Machine words, byte strings, big-endian numbers and the cursor reads that
    every codec of the system is written with. */
module Bytes {
  type byte = x: int | 0 <= x < 0x100
  type u64 = x: int | 0 <= x < 0x1_0000_0000_0000_0000
  type nonzero = x: int | 1 <= x < 0x1_0000_0000_0000_0000 witness 1
  const U64_MAX: u64 := 0xFFFF_FFFF_FFFF_FFFF

  function Max(a: u64, b: u64): u64 { if a < b then b else a }

  type Id32 = s: seq<byte> | |s| == 32 witness seq(32, _ => 0)
  type Id16 = s: seq<byte> | |s| == 16 witness seq(16, _ => 0)

  datatype Option<+T> = None | Some(value: T)

  /** The static error strings of the crates, one constructor per message. */
  datatype Error =
    | Truncated | Trailing | ExceedsBound | WrongFormat | WrongScope
    | InvalidTopic | Noncanonical | InvalidLength | InvalidMarker | ZeroSequence
    | InvalidPublication | TopicLimit | AlreadyRetained | SequenceExhausted | SequenceMismatch
    | InvalidWatermark | PacketLimit | InvalidPacket | BytesLimit | UnobservedTopic | InvalidHead
    | InvalidQuery | SequenceOutsideRange | UnexpectedTopicOrId | IncompleteResponse | PacketMismatch
    | BadSignature | Undecryptable | AuthorMismatch
    | Discontinuous | CapacityExhausted | ConflictingPublication
    | NotCurrent | NoSequence | ExcludesLocal | MemberRequired | CurrentWithRecipients
    | ConflictingIdentity | IdentityReused | PendingWindowFull | UnknownStream | UnknownObject
    | NotPending | GapGone | GapChanged | OutsideAudience | InvalidHint
    | ConflictingValue | InvalidValue | DigestMismatch | InvalidRecipients

  datatype Result<+T> = Ok(value: T) | Err(error: Error) {
    predicate IsFailure() { Err? }
    function PropagateFailure<U>(): Result<U> requires Err? { Err(error) }
    function Extract(): T requires Ok? { value }
  }

  // ---------------------------------------------------------------- numbers

  ghost function Pow256(n: nat): nat {
    if n == 0 then 1 else 256 * Pow256(n - 1)
  }

  /** The number a big-endian byte string denotes. */
  function Number(b: seq<byte>): nat {
    if b == [] then 0 else 256 * Number(b[..|b| - 1]) + b[|b| - 1]
  }

  function BigEndian(n: nat, width: nat): (b: seq<byte>)
    requires n < Pow256(width)
    ensures |b| == width && Number(b) == n
  {
    if width == 0 then [] else
    var rest := BigEndian(n / 256, width - 1);
    assert (rest + [n % 256])[..width - 1] == rest;
    rest + [n % 256]
  }

  lemma {:induction false} NumberInjective(a: seq<byte>, b: seq<byte>)
    requires |a| == |b| && Number(a) == Number(b)
    ensures a == b
  {
    if a != [] {
      NumberInjective(a[..|a| - 1], b[..|b| - 1]);
      assert a == a[..|a| - 1] + [a[|a| - 1]] && b == b[..|b| - 1] + [b[|b| - 1]];
    }
  }

  lemma {:induction false} NumberBound(b: seq<byte>)
    ensures Number(b) < Pow256(|b|)
  {
    if b != [] { NumberBound(b[..|b| - 1]); }
  }

  lemma Powers()
    ensures Pow256(2) == 0x1_0000 && Pow256(4) == 0x1_0000_0000
    ensures Pow256(8) == 0x1_0000_0000_0000_0000
  {
    assert Pow256(1) == 0x100 && Pow256(3) == 0x100_0000;
    assert Pow256(5) == 0x100_0000_0000 && Pow256(6) == 0x1_0000_0000_0000 && Pow256(7) == 0x100_0000_0000_0000;
  }

  function U64Bytes(n: u64): (b: seq<byte>)
    ensures |b| == 8 && Number(b) == n
  {
    Powers(); BigEndian(n, 8)
  }

  /** A length narrowed to 32 bits, as `as u32` narrows it. */
  function U32Bytes(n: nat): (b: seq<byte>)
    ensures |b| == 4 && Number(b) == n % 0x1_0000_0000
  {
    Powers(); BigEndian(n % 0x1_0000_0000, 4)
  }

  function U16Bytes(n: nat): (b: seq<byte>)
    ensures |b| == 2 && Number(b) == n % 0x1_0000
  {
    Powers(); BigEndian(n % 0x1_0000, 2)
  }

  // ------------------------------------------------------------ cursor reads

  /** A value read from the front of the input, and the input that is left. */
  datatype Read<+T> = Read(value: T, rest: seq<byte>)

  function Take(input: seq<byte>, count: nat): (r: Result<Read<seq<byte>>>)
    ensures r.Ok? <==> count <= |input|
    ensures r.Ok? ==> |r.value.value| == count && r.value.value + r.value.rest == input
  {
    if count <= |input| then Ok(Read(input[..count], input[count..])) else Err(Truncated)
  }

  function TakeByte(input: seq<byte>): (r: Result<Read<byte>>)
    ensures r.Ok? ==> [r.value.value] + r.value.rest == input
  {
    if input != [] then Ok(Read(input[0], input[1..])) else Err(Truncated)
  }

  function TakeU64(input: seq<byte>): (r: Result<Read<u64>>)
    ensures r.Ok? ==> U64Bytes(r.value.value) + r.value.rest == input
  {
    var t :- Take(input, 8);
    Powers(); NumberBound(t.value);
    NumberInjective(t.value, U64Bytes(Number(t.value)));
    Ok(Read(Number(t.value), t.rest))
  }

  function TakeU32(input: seq<byte>): (r: Result<Read<nat>>)
    ensures r.Ok? ==> r.value.value < 0x1_0000_0000 && U32Bytes(r.value.value) + r.value.rest == input
  {
    var t :- Take(input, 4);
    Powers(); NumberBound(t.value);
    NumberInjective(t.value, U32Bytes(Number(t.value)));
    Ok(Read(Number(t.value), t.rest))
  }

  function TakeU16(input: seq<byte>): (r: Result<Read<nat>>)
    ensures r.Ok? ==> r.value.value < 0x1_0000 && U16Bytes(r.value.value) + r.value.rest == input
  {
    var t :- Take(input, 2);
    Powers(); NumberBound(t.value);
    NumberInjective(t.value, U16Bytes(Number(t.value)));
    Ok(Read(Number(t.value), t.rest))
  }

  // Each read undoes the matching write, whatever follows it.

  lemma TakeWritten(a: seq<byte>, rest: seq<byte>)
    ensures Take(a + rest, |a|) == Ok(Read(a, rest))
  {
    assert (a + rest)[..|a|] == a && (a + rest)[|a|..] == rest;
  }

  lemma ByteWritten(x: byte, rest: seq<byte>)
    ensures TakeByte([x] + rest) == Ok(Read(x, rest))
  {
    assert ([x] + rest)[1..] == rest;
  }

  lemma U64Written(n: u64, rest: seq<byte>)
    ensures TakeU64(U64Bytes(n) + rest) == Ok(Read(n, rest))
  {
    hide Number, BigEndian, U64Bytes, Take;
    TakeWritten(U64Bytes(n), rest);
  }

  lemma U32Written(n: nat, rest: seq<byte>)
    requires n < 0x1_0000_0000
    ensures TakeU32(U32Bytes(n) + rest) == Ok(Read(n, rest))
  {
    hide Number, BigEndian, U32Bytes, Take;
    TakeWritten(U32Bytes(n), rest);
  }

  lemma U16Written(n: nat, rest: seq<byte>)
    requires n < 0x1_0000
    ensures TakeU16(U16Bytes(n) + rest) == Ok(Read(n, rest))
  {
    hide Number, BigEndian, U16Bytes, Take;
    TakeWritten(U16Bytes(n), rest);
  }
}
