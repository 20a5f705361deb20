/**
 Length-prefixed messages between the guide parser's client, broker and child: a big-endian 32-bit
 length and that many bytes; a request is such a frame followed by the raw source it announces.
 */
module Frames {
  import opened Wrappers

  newtype Byte = x: int | 0 <= x < 256

  const SIZE_LIMIT: nat := 0x1_0000_0000

  function Pack(n: nat): seq<Byte>
    requires n < SIZE_LIMIT
  {
    [(n / 0x100_0000) as Byte, (n / 0x1_0000 % 0x100) as Byte, (n / 0x100 % 0x100) as Byte, (n % 0x100) as Byte]
  }

  function Unpack(b: seq<Byte>): (n: nat)
    requires |b| == 4
    ensures n < SIZE_LIMIT
  {
    b[0] as int * 0x100_0000 + b[1] as int * 0x1_0000 + b[2] as int * 0x100 + b[3] as int
  }

  /** Header and length are one-to-one. */
  lemma PackInverse(n: nat)
    requires n < SIZE_LIMIT
    ensures Unpack(Pack(n)) == n
  {
    assert n == n / 0x100 * 0x100 + n % 0x100;
    assert n / 0x100 == n / 0x1_0000 * 0x100 + n / 0x100 % 0x100;
    assert n / 0x1_0000 == n / 0x100_0000 * 0x100 + n / 0x1_0000 % 0x100;
  }

  lemma UnpackInverse(b: seq<Byte>)
    requires |b| == 4
    ensures Pack(Unpack(b)) == b
  {
    var n, b0, b1, b2, b3 := Unpack(b), b[0] as int, b[1] as int, b[2] as int, b[3] as int;
    assert n / 0x100 == b0 * 0x1_0000 + b1 * 0x100 + b2;
    assert n / 0x1_0000 == b0 * 0x100 + b1;
    assert n / 0x100_0000 == b0;
    assert Pack(n) == [b[0], b[1], b[2], b[3]];
  }

  function Frame(raw: seq<Byte>): seq<Byte>
    requires |raw| < SIZE_LIMIT
  {
    Pack(|raw|) + raw
  }

  /** What a request occupies on the wire. */
  function RequestBytes(metadata: seq<Byte>, source: seq<Byte>): seq<Byte>
    requires |metadata| < SIZE_LIMIT
  {
    Frame(metadata) + source
  }

  /** A byte stream read from the front. */
  class Stream {
    const data: seq<Byte>
    var position: nat

    ghost predicate Valid()
      reads this
    {
      position <= |data|
    }

    ghost function Rest(): seq<Byte>
      requires Valid()
      reads this
    {
      data[position..]
    }

    constructor (data: seq<Byte>)
      ensures Valid() && this.data == data && position == 0
    {
      this.data := data;
      position := 0;
    }

    /** Exactly `size` bytes, or an end-of-file error. */
    method ReadExact(size: nat) returns (r: Result<seq<Byte>>)
      requires Valid()
      modifies this
      ensures Valid()
      ensures r.Ok? <==> size <= |old(Rest())|
      ensures r.Ok? ==> old(Rest()) == r.value + Rest() && |r.value| == size
    {
      var stop := if position + size <= |data| then position + size else |data|;
      var value := data[position..stop];
      position := stop;
      if |value| != size {
        return Refused("end of file");
      }
      return Ok(value);
    }

    /** One frame that is not empty and not longer than the maximum. */
    method ReadFrame(maximum: nat) returns (r: Result<seq<Byte>>)
      requires Valid()
      modifies this
      ensures Valid()
      ensures r.Ok? <==> StartsWithFrame(old(Rest()), maximum)
      ensures r.Ok? ==> |r.value| < SIZE_LIMIT && old(Rest()) == Frame(r.value) + Rest()
    {
      ghost var before := Rest();
      var header := ReadExact(4);
      if header.Refused? {
        return Refused(header.error);
      }
      UnpackInverse(header.value);
      var size := Unpack(header.value);
      assert before[..4] == header.value;
      if size == 0 || size > maximum {
        return Refused("frame is invalid");
      }
      r := ReadExact(size);
      if r.Ok? {
        assert before == header.value + (r.value + Rest());
        assert header.value + (r.value + Rest()) == Frame(r.value) + Rest();
      }
    }

    /** A request: the metadata frame, then as many source bytes as the metadata announces. */
    method ReadRequest(sourceSize: seq<Byte> -> Option<nat>) returns (r: Result<(seq<Byte>, seq<Byte>)>)
      requires Valid()
      modifies this
      ensures Valid()
      ensures r.Ok? <==> StartsWithRequest(old(Rest()), sourceSize)
      ensures r.Ok? ==>
                && |r.value.0| < SIZE_LIMIT && sourceSize(r.value.0) == Some(|r.value.1|)
                && old(Rest()) == RequestBytes(r.value.0, r.value.1) + Rest()
    {
      ghost var before := Rest();
      var header := ReadExact(4);
      if header.Refused? {
        return Refused(header.error);
      }
      UnpackInverse(header.value);
      assert before[..4] == header.value;
      ghost var afterHeader := Rest();
      var metadata := ReadExact(Unpack(header.value));
      if metadata.Refused? {
        return Refused(metadata.error);
      }
      assert before == Frame(metadata.value) + Rest();
      assert before[4..][..Unpack(header.value)] == metadata.value;
      ghost var afterMetadata := Rest();
      var size := sourceSize(metadata.value);
      if size.None? {
        return Refused("request metadata is invalid");
      }
      var source := ReadExact(size.value);
      if source.Refused? {
        return Refused(source.error);
      }
      assert Frame(metadata.value) + (source.value + Rest()) == RequestBytes(metadata.value, source.value) + Rest();
      r := Ok((metadata.value, source.value));
    }
  }

  predicate StartsWithFrame(bytes: seq<Byte>, maximum: nat) {
    |bytes| >= 4 && 0 < Unpack(bytes[..4]) <= maximum && Unpack(bytes[..4]) <= |bytes| - 4
  }

  predicate StartsWithRequest(bytes: seq<Byte>, sourceSize: seq<Byte> -> Option<nat>) {
    && |bytes| >= 4 && Unpack(bytes[..4]) <= |bytes| - 4
    && var size := sourceSize(bytes[4..][..Unpack(bytes[..4])]);
       size.Some? && size.value <= |bytes| - 4 - Unpack(bytes[..4])
  }

  /** A written frame reads back exactly when it is neither empty nor too long, whatever follows it. */
  lemma FrameReadsBack(raw: seq<Byte>, rest: seq<Byte>, maximum: nat)
    requires |raw| < SIZE_LIMIT
    ensures StartsWithFrame(Frame(raw) + rest, maximum) <==> 0 < |raw| <= maximum
  {
    assert (Frame(raw) + rest)[..4] == Pack(|raw|);
    PackInverse(|raw|);
  }

  /** A request cut anywhere is refused; a whole one, with the size its metadata announces, is accepted. */
  lemma RequestReadsBack(metadata: seq<Byte>, source: seq<Byte>, k: nat, sourceSize: seq<Byte> -> Option<nat>)
    requires |metadata| < SIZE_LIMIT && sourceSize(metadata) == Some(|source|)
    requires k <= |RequestBytes(metadata, source)|
    ensures StartsWithRequest(RequestBytes(metadata, source)[..k], sourceSize) <==> k == |RequestBytes(metadata, source)|
  {
    var whole := RequestBytes(metadata, source);
    var bytes := whole[..k];
    PackInverse(|metadata|);
    assert whole[..4] == Pack(|metadata|);
    if k >= 4 {
      assert bytes[..4] == whole[..4];
      if |metadata| <= k - 4 {
        assert bytes[4..][..|metadata|] == metadata;
      }
    }
  }

  /** No stream begins with two different frames. */
  lemma FramesPrefixFree(a: seq<Byte>, b: seq<Byte>, ra: seq<Byte>, rb: seq<Byte>)
    requires |a| < SIZE_LIMIT && |b| < SIZE_LIMIT && Frame(a) + ra == Frame(b) + rb
    ensures a == b && ra == rb
  {
    var bytes := Frame(a) + ra;
    assert bytes[..4] == Pack(|a|) && bytes[..4] == Pack(|b|);
    PackInverse(|a|);
    PackInverse(|b|);
    assert bytes[4..][..|a|] == a && bytes[4..][..|b|] == b;
    assert bytes[4 + |a|..] == ra && bytes[4 + |b|..] == rb;
  }
}
