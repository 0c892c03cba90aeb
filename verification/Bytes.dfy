/** Bytes, little-endian words and in-place buffer writes: the GET_4_BYTES,
    GET_8_BYTES and PUT_4_BYTES macros of gpt-utils.cpp. */
module Bytes {

  type byte = bv8
  type word = bv32

  // ---------- Words as bytes ----------

  function Join4(b0: byte, b1: byte, b2: byte, b3: byte): word {
    (b0 as word) | ((b1 as word) << 8) | ((b2 as word) << 16) | ((b3 as word) << 24)
  }

  function Join8(lo: word, hi: word): bv64 {
    (lo as bv64) | ((hi as bv64) << 32)
  }

  function Byte0(y: word): byte { (y & 0xff) as byte }
  function Byte1(y: word): byte { ((y >> 8) & 0xff) as byte }
  function Byte2(y: word): byte { ((y >> 16) & 0xff) as byte }
  function Byte3(y: word): byte { ((y >> 24) & 0xff) as byte }

  lemma JoinBytes(y: word)
    ensures Join4(Byte0(y), Byte1(y), Byte2(y), Byte3(y)) == y
  {
  }

  lemma BytesOfJoin(b0: byte, b1: byte, b2: byte, b3: byte)
    ensures Byte0(Join4(b0, b1, b2, b3)) == b0 && Byte1(Join4(b0, b1, b2, b3)) == b1
    ensures Byte2(Join4(b0, b1, b2, b3)) == b2 && Byte3(Join4(b0, b1, b2, b3)) == b3
  {
  }

  // ---------- Fields of a byte sequence ----------

  function Get4(s: seq<byte>, off: nat): word
    requires off + 4 <= |s|
  {
    Join4(s[off], s[off + 1], s[off + 2], s[off + 3])
  }

  function Get8(s: seq<byte>, off: nat): bv64
    requires off + 8 <= |s|
  {
    Join8(Get4(s, off), Get4(s, off + 4))
  }

  /** The lowest byte comes first. */
  lemma LowByteFirst(s: seq<byte>, off: nat, w: word, b0: byte, b1: byte, b2: byte, b3: byte)
    requires off + 4 <= |s| && w == Get4(s, off)
    requires s[off] == b0 && s[off + 1] == b1 && s[off + 2] == b2 && s[off + 3] == b3
    ensures w & 0xff == b0 as word && (w >> 8) & 0xff == b1 as word
    ensures (w >> 16) & 0xff == b2 as word && w >> 24 == b3 as word
  {
    JoinedLowFirst(b0, b1, b2, b3, w);
  }

  lemma JoinedLowFirst(b0: byte, b1: byte, b2: byte, b3: byte, w: word)
    requires w == Join4(b0, b1, b2, b3)
    ensures w & 0xff == b0 as word && (w >> 8) & 0xff == b1 as word
    ensures (w >> 16) & 0xff == b2 as word && w >> 24 == b3 as word
  {
  }

  lemma HalvesLowFirst(lo: word, hi: word)
    ensures Join8(lo, hi) & 0xffff_ffff == lo as bv64 && Join8(lo, hi) >> 32 == hi as bv64
  {
  }

  /** The value of s once `buf` is written over it at `off`. */
  function Splice(s: seq<byte>, off: nat, buf: seq<byte>): (t: seq<byte>)
    requires off + |buf| <= |s|
    ensures |t| == |s|
    ensures forall i :: 0 <= i < |s| ==> t[i] == if off <= i < off + |buf| then buf[i - off] else s[i]
  {
    s[..off] + buf + s[off + |buf|..]
  }

  function Put4(s: seq<byte>, off: nat, y: word): (t: seq<byte>)
    requires off + 4 <= |s|
    ensures |t| == |s|
  {
    Splice(s, off, [Byte0(y), Byte1(y), Byte2(y), Byte3(y)])
  }

  /** Reading back what was written; every byte outside the field keeps its value. */
  lemma GetPut(s: seq<byte>, off: nat, y: word)
    requires off + 4 <= |s|
    ensures Get4(Put4(s, off, y), off) == y
    ensures Put4(s, off, y)[..off] == s[..off] && Put4(s, off, y)[off + 4..] == s[off + 4..]
    ensures forall i :: 0 <= i < |s| && !(off <= i < off + 4) ==> Put4(s, off, y)[i] == s[i]
  {
    JoinBytes(y);
  }

  /** Writing back what was read changes nothing; only the last write to a field counts. */
  lemma PutGet(s: seq<byte>, off: nat, y: word)
    requires off + 4 <= |s|
    ensures Put4(s, off, Get4(s, off)) == s
    ensures Put4(Put4(s, off, y), off, Get4(s, off)) == s
  {
    BytesOfJoin(s[off], s[off + 1], s[off + 2], s[off + 3]);
  }

  lemma PutPut(s: seq<byte>, off: nat, y: word, z: word)
    requires off + 4 <= |s|
    ensures Put4(Put4(s, off, y), off, z) == Put4(s, off, z)
  {
  }

  /** Fields that lie outside a changed region read the same. */
  lemma GetAgree(s: seq<byte>, t: seq<byte>, off: nat)
    requires off + 4 <= |s| == |t|
    requires forall i :: off <= i < off + 4 ==> s[i] == t[i]
    ensures Get4(s, off) == Get4(t, off)
  {
  }

  // ---------- In-place writes ----------

  /** memcpy(dst + off, src, |src|) */
  method CopyInto(dst: array<byte>, off: nat, src: seq<byte>)
    requires off + |src| <= dst.Length
    modifies dst
    ensures dst[..] == Splice(old(dst[..]), off, src)
  {
    for i := 0 to |src|
      invariant forall j :: 0 <= j < dst.Length ==> dst[j] == if off <= j < off + i then src[j - off] else old(dst[j])
    {
      dst[off + i] := src[i];
    }
  }

  /** PUT_4_BYTES(dst + off, y) */
  method PutWord(dst: array<byte>, off: nat, y: word)
    requires off + 4 <= dst.Length
    modifies dst
    ensures dst[..] == Put4(old(dst[..]), off, y)
  {
    dst[off] := Byte0(y);
    dst[off + 1] := Byte1(y);
    dst[off + 2] := Byte2(y);
    dst[off + 3] := Byte3(y);
  }

  method Fresh(src: seq<byte>) returns (buf: array<byte>)
    ensures fresh(buf) && buf[..] == src
  {
    buf := new byte[|src|](i requires 0 <= i < |src| => src[i]);
  }
}
