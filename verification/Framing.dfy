/**
 * Length-framed hash input: the encoder of trust.rs, its unique readability, and the frames that policies and grants
 * are written in.
 */
module Framing {
  import opened Bytes

  type U64 = x: nat | x < 0x1_0000_0000_0000_0000
  type U32 = x: nat | x < 0x1_0000_0000

  /** A byte string whose length fits the eight-byte frame header. */
  type Text = b: ByteString | |b| < 0x1_0000_0000_0000_0000

  function U64Bytes(value: U64): (bytes: Text)
    ensures |bytes| == U64_BYTES
  {
    U64Range();
    BigEndian(value, U64_BYTES)
  }

  function U32Bytes(value: U32): (bytes: Text)
    ensures |bytes| == U32_BYTES
  {
    U64Range();
    BigEndian(value, U32_BYTES)
  }

  function Flag(value: bool): Text {
    [if value then 1 else 0]
  }

  lemma {:induction false} U64BytesInjective(a: U64, b: U64)
    requires U64Bytes(a) == U64Bytes(b)
    ensures a == b
  {
    U64Range();
    BigEndianRoundTrip(a, U64_BYTES);
    BigEndianRoundTrip(b, U64_BYTES);
  }

  lemma {:induction false} U32BytesInjective(a: U32, b: U32)
    requires U32Bytes(a) == U32Bytes(b)
    ensures a == b
  {
    U64Range();
    BigEndianRoundTrip(a, U32_BYTES);
    BigEndianRoundTrip(b, U32_BYTES);
  }

  /** The length, then the bytes. */
  function FrameBytes(frame: Text): ByteString {
    U64Bytes(|frame|) + frame
  }

  function Flatten(frames: seq<Text>): ByteString {
    if frames == [] then [] else FrameBytes(frames[0]) + Flatten(frames[1..])
  }

  lemma {:induction false} FlattenAppend(frames: seq<Text>, frame: Text)
    ensures Flatten(frames + [frame]) == Flatten(frames) + FrameBytes(frame)
  {
    if frames == [] {
      assert [frame][1..] == [];
    } else {
      assert (frames + [frame])[1..] == frames[1..] + [frame];
      FlattenAppend(frames[1..], frame);
    }
  }

  /** A frame ends where its header says, whatever follows. */
  lemma {:induction false} FrameSplit(a: Text, b: Text, restA: ByteString, restB: ByteString)
    requires FrameBytes(a) + restA == FrameBytes(b) + restB
    ensures a == b && restA == restB
  {
    var all := FrameBytes(a) + restA;
    assert all[..U64_BYTES] == U64Bytes(|a|);
    assert all[..U64_BYTES] == U64Bytes(|b|);
    U64BytesInjective(|a|, |b|);
    var n := U64_BYTES + |a|;
    assert all[U64_BYTES..n] == a && all[U64_BYTES..n] == b;
    assert all[n..] == restA && all[n..] == restB;
  }

  /** The hash input determines its frames: no two frame lists share one. */
  lemma {:induction false} FlattenInjective(a: seq<Text>, b: seq<Text>)
    requires Flatten(a) == Flatten(b)
    ensures a == b
  {
    if a != [] && b != [] {
      FrameSplit(a[0], b[0], Flatten(a[1..]), Flatten(b[1..]));
      FlattenInjective(a[1..], b[1..]);
      assert a == [a[0]] + a[1..] && b == [b[0]] + b[1..];
    }
  }

  /** Eight bytes that say how long the frame is, then the frame. */
  ghost predicate Headed(part: ByteString, frame: Text) {
    |part| == 8 + |frame| && EightByteValue(part[..8]) == |frame| && part[8..] == frame
  }

  /** The frames one after the other, each with its header. */
  ghost predicate Framed(b: ByteString, frames: seq<Text>) {
    exists parts :: FramedAs(b, frames, parts)
  }

  ghost predicate FramedAs(b: ByteString, frames: seq<Text>, parts: seq<ByteString>) {
    |parts| == |frames| && b == Joined(parts) && forall i :: 0 <= i < |frames| ==> Headed(parts[i], frames[i])
  }

  lemma {:induction false} FrameHeaded(frame: Text)
    ensures Headed(FrameBytes(frame), frame)
  {
    U64Range();
    EightBytesExactly(|frame|);
    assert FrameBytes(frame)[..8] == BigEndian(|frame|, 8) && FrameBytes(frame)[8..] == frame;
  }

  lemma {:induction false} FlattenParts(frames: seq<Text>) returns (parts: seq<ByteString>)
    ensures FramedAs(Flatten(frames), frames, parts)
  {
    if frames == [] {
      parts := [];
    } else {
      FrameHeaded(frames[0]);
      var rest := FlattenParts(frames[1..]);
      parts := [FrameBytes(frames[0])] + rest;
      assert parts[1..] == rest;
    }
  }

  /** The hash input, byte by byte. */
  lemma {:induction false} FlattenLayout(frames: seq<Text>)
    ensures Framed(Flatten(frames), frames)
  {
    var parts := FlattenParts(frames);
  }

  /** The encoder: hash input so far, as bytes. `frames` records how they were framed. */
  class CanonicalHasher {
    var input: ByteString
    ghost var frames: seq<Text>

    ghost predicate Valid()
      reads this
    {
      input == Flatten(frames)
    }

    constructor (domain: Text)
      ensures Valid() && frames == [domain]
    {
      input := FrameBytes(domain);
      frames := [domain];
      new;
      assert [domain][1..] == [];
    }

    method Frame(bytes: Text)
      requires Valid()
      modifies this
      ensures Valid() && frames == old(frames) + [bytes]
    {
      FlattenAppend(frames, bytes);
      input := input + U64Bytes(|bytes|);
      input := input + bytes;
      frames := frames + [bytes];
      assert input == old(input) + FrameBytes(bytes);
    }

    method String(name: Text, value: Text)
      requires Valid()
      modifies this
      ensures Valid() && frames == old(frames) + [name, value]
    {
      Frame(name);
      Frame(value);
    }

    method Tag(name: Text, value: Byte)
      requires Valid()
      modifies this
      ensures Valid() && frames == old(frames) + [name, [value]]
    {
      Frame(name);
      Frame([value]);
    }

    method Boolean(name: Text, value: bool)
      requires Valid()
      modifies this
      ensures Valid() && frames == old(frames) + [name, Flag(value)]
    {
      Frame(name);
      Frame(Flag(value));
    }

    method UInt32(name: Text, value: U32)
      requires Valid()
      modifies this
      ensures Valid() && frames == old(frames) + [name, U32Bytes(value)]
    {
      Frame(name);
      Frame(U32Bytes(value));
    }

    method UInt64(name: Text, value: U64)
      requires Valid()
      modifies this
      ensures Valid() && frames == old(frames) + [name, U64Bytes(value)]
    {
      Frame(name);
      Frame(U64Bytes(value));
    }
  }
}
