/** The byte framing shared by every record and operation: big-endian integers, raw and length-prefixed fields. */
module Codec {
  import opened Prelude
  import opened Crypto

  type U32 = n: int | 0 <= n < 0x1_0000_0000

  type U64 = n: int | 0 <= n < 0x1_0000_0000_0000_0000

  /** A byte string that fits a 32-bit length prefix. */
  type Field = b: Bytes | |b| < 0x1_0000_0000

  datatype DecodeError =
    | EmptyPayload
    | UnknownOpcode(opcode: Byte)
    | Truncated
    | TrailingBytes
    | ReservedKeyPrefix(prefix: Byte)
    | MalformedMembershipOp
    | MalformedDidOp
    | MalformedSubActorOp
    | MalformedRebindOp
    | InvalidDid
    | UnsupportedDidDocumentVersion(version: Byte)
    | UnknownVerificationMethodType(kind: Byte)
    | NoSigningMethod
    | UnknownActorIdVariant(variant: Byte)
    | UnknownActorTag(code: Byte)
    | ActorIndexOutOfRange(index: nat)
    | ExpectedSubActor

  /** A decoded value and the bytes after it. */
  datatype Parsed<+T> = Parsed(value: T, rest: Bytes)

  type Decoded<+T> = Result<Parsed<T>, DecodeError>

  // ---------------------------------------------------------------- integers

  function Bound(width: nat): (limit: nat)
    ensures limit >= 1
  {
    if width == 0 then 1 else 256 * Bound(width - 1)
  }

  lemma Widths()
    ensures Bound(4) == 0x1_0000_0000 && Bound(8) == 0x1_0000_0000_0000_0000
  {
    assert Bound(2) == 0x1_0000;
    assert Bound(4) == 0x1_0000_0000;
    assert Bound(6) == 0x1_0000_0000_0000;
    assert Bound(8) == 0x1_0000_0000_0000_0000;
  }

  function BigEndian(n: nat, width: nat): (b: Bytes)
    ensures |b| == width
  {
    if width == 0 then [] else BigEndian(n / 256, width - 1) + [n % 256]
  }

  function Number(b: Bytes): nat {
    if b == [] then 0 else Number(b[..|b| - 1]) * 256 + b[|b| - 1]
  }

  lemma {:induction false} NumberOfBigEndian(n: nat, width: nat)
    requires n < Bound(width)
    ensures Number(BigEndian(n, width)) == n
  {
    if width > 0 {
      var high := BigEndian(n / 256, width - 1);
      NumberOfBigEndian(n / 256, width - 1);
      assert (high + [n % 256])[..width - 1] == high;
    }
  }

  lemma {:induction false} BigEndianOfNumber(b: Bytes)
    ensures Number(b) < Bound(|b|) && BigEndian(Number(b), |b|) == b
  {
    if b != [] {
      var high, low := b[..|b| - 1], b[|b| - 1];
      BigEndianOfNumber(high);
      assert Number(b) / 256 == Number(high) && Number(b) % 256 == low;
      assert b == high + [low];
    }
  }

  // ---------------------------------------------------------------- fields

  function Take(cursor: Bytes, n: nat): Decoded<Bytes> {
    if |cursor| < n then Err(Truncated) else Ok(Parsed(cursor[..n], cursor[n..]))
  }

  function TakeByte(cursor: Bytes): Decoded<Byte> {
    if cursor == [] then Err(Truncated) else Ok(Parsed(cursor[0], cursor[1..]))
  }

  function TakeU32(cursor: Bytes): Decoded<U32> {
    if |cursor| < 4 then Err(Truncated)
    else
      BigEndianOfNumber(cursor[..4]); Widths();
      Ok(Parsed(Number(cursor[..4]), cursor[4..]))
  }

  function TakeU64(cursor: Bytes): Decoded<U64> {
    if |cursor| < 8 then Err(Truncated)
    else
      BigEndianOfNumber(cursor[..8]); Widths();
      Ok(Parsed(Number(cursor[..8]), cursor[8..]))
  }

  /** Writes the length, modulo 2^32, and the bytes. */
  function PutField(b: Bytes): Bytes { BigEndian(|b|, 4) + b }

  function TakeField(cursor: Bytes): Decoded<Field> {
    var Parsed(len, body) :- TakeU32(cursor);
    if |body| < len then Err(Truncated) else Ok(Parsed(body[..len], body[len..]))
  }

  lemma TakeAppended(b: Bytes, rest: Bytes)
    ensures Take(b + rest, |b|) == Ok(Parsed(b, rest))
  {
    assert (b + rest)[..|b|] == b && (b + rest)[|b|..] == rest;
  }

  lemma TakeByteAppended(b: Byte, rest: Bytes)
    ensures TakeByte([b] + rest) == Ok(Parsed(b, rest))
  {
    assert ([b] + rest)[1..] == rest;
  }

  lemma TakeU32Appended(n: U32, rest: Bytes)
    ensures TakeU32(BigEndian(n, 4) + rest) == Ok(Parsed(n, rest))
  {
    Widths();
    NumberOfBigEndian(n, 4);
    var b := BigEndian(n, 4);
    assert (b + rest)[..4] == b && (b + rest)[4..] == rest;
  }

  lemma TakeU64Appended(n: U64, rest: Bytes)
    ensures TakeU64(BigEndian(n, 8) + rest) == Ok(Parsed(n, rest))
  {
    Widths();
    NumberOfBigEndian(n, 8);
    var b := BigEndian(n, 8);
    assert (b + rest)[..8] == b && (b + rest)[8..] == rest;
  }

  lemma TakeFieldAppended(b: Field, rest: Bytes)
    ensures TakeField(PutField(b) + rest) == Ok(Parsed(b, rest))
  {
    assert PutField(b) + rest == BigEndian(|b|, 4) + (b + rest);
    TakeU32Appended(|b|, b + rest);
    assert (b + rest)[..|b|] == b && (b + rest)[|b|..] == rest;
  }

  /** A length-prefixed field is read back from exactly one byte string. */
  lemma TakeFieldCanonical(cursor: Bytes)
    requires TakeField(cursor).Ok?
    ensures cursor == PutField(TakeField(cursor).value.value) + TakeField(cursor).value.rest
  {
    var Parsed(field, rest) := TakeField(cursor).value;
    BigEndianOfNumber(cursor[..4]);
    assert cursor == cursor[..4] + (field + rest);
  }
}
