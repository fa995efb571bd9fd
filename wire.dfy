/** The part of the request's serialised form this model covers: a 32-bit
    signed integer written as four bytes, most significant first, as
    java.io.DataOutput.writeInt lays it out. */
module Wire {
  import opened Partitions

  newtype byte = x: int | 0 <= x < 0x100
  newtype int32 = x: int | -0x8000_0000 <= x < 0x8000_0000

  /** The two's-complement bit pattern of `v`, read as an unsigned number. */
  function Unsigned(v: int32): (u: int)
    ensures 0 <= u < 0x1_0000_0000
    ensures u % 0x1_0000_0000 == (v as int) % 0x1_0000_0000
  {
    if v < 0 then v as int + 0x1_0000_0000 else v as int
  }

  function EncodeInt(v: int32): (bs: seq<byte>)
    ensures |bs| == 4
  {
    var u := Unsigned(v);
    var a := u / 0x100;
    var b := a / 0x100;
    [(b / 0x100) as byte, (b % 0x100) as byte, (a % 0x100) as byte, (u % 0x100) as byte]
  }

  function DecodeInt(bs: seq<byte>): (v: int32)
    requires |bs| == 4
  {
    var u := ((bs[0] as int * 0x100 + bs[1] as int) * 0x100 + bs[2] as int) * 0x100 + bs[3] as int;
    if u < 0x8000_0000 then u as int32 else (u - 0x1_0000_0000) as int32
  }

  /** Reading back what writeInt wrote gives the original value. */
  lemma DecodeEncode(v: int32)
    ensures DecodeInt(EncodeInt(v)) == v
  {
    var u := Unsigned(v);
    var a := u / 0x100;
    var b := a / 0x100;
    assert u == a * 0x100 + u % 0x100;
    assert a == b * 0x100 + a % 0x100;
    assert b == (b / 0x100) * 0x100 + b % 0x100;
    var bs := EncodeInt(v);
    assert ((bs[0] as int * 0x100 + bs[1] as int) * 0x100 + bs[2] as int) * 0x100 + bs[3] as int == u;
  }

  /** Every four bytes are the encoding of exactly one value. */
  lemma EncodeDecode(bs: seq<byte>)
    requires |bs| == 4
    ensures EncodeInt(DecodeInt(bs)) == bs
  {
    var b := bs[0] as int * 0x100 + bs[1] as int;
    var a := b * 0x100 + bs[2] as int;
    var u := a * 0x100 + bs[3] as int;
    assert Unsigned(DecodeInt(bs)) == u;
    assert u / 0x100 == a && u % 0x100 == bs[3] as int;
    assert a / 0x100 == b && a % 0x100 == bs[2] as int;
    assert b / 0x100 == bs[0] as int && b % 0x100 == bs[1] as int;
  }

  /** An output stream: the bytes written so far. */
  class DataOutput {
    var bytes: seq<byte>

    constructor ()
      ensures bytes == []
    {
      bytes := [];
    }

    method WriteInt(v: int32)
      modifies this
      ensures bytes == old(bytes) + EncodeInt(v)
    {
      bytes := bytes + EncodeInt(v);
    }
  }

  /** An input stream over fixed bytes with a read position. */
  class DataInput {
    const bytes: seq<byte>
    var pos: nat

    constructor (bytes: seq<byte>)
      ensures this.bytes == bytes && pos == 0
    {
      this.bytes := bytes;
      pos := 0;
    }

    /** Reads four bytes; `None` stands for the EOFException raised when
        fewer than four remain, in which case the position does not move. */
    method ReadInt() returns (r: Option<int32>)
      modifies this
      ensures old(pos) + 4 <= |bytes| ==>
        r == Some(DecodeInt(bytes[old(pos)..old(pos) + 4])) && pos == old(pos) + 4
      ensures old(pos) + 4 > |bytes| ==> r == None && pos == old(pos)
    {
      if pos + 4 <= |bytes| {
        r := Some(DecodeInt(bytes[pos..pos + 4]));
        pos := pos + 4;
      } else {
        r := None;
      }
    }
  }
}
