/** One GPT header block (section 5.3.2 of the UEFI Specification) as gpt-utils.cpp reads,
    corrupts, repairs and re-checksums it.  The checksum is any function of bytes. */
module GptHeader {
  import opened Bytes

  type Checksum = seq<byte> -> word

  datatype State = Ok | BadSignature | BadCrc

  /** "EFI PART" with its terminating NUL: sizeof counts it, so nine bytes are compared. */
  const SIGNATURE: seq<byte> := [0x45, 0x46, 0x49, 0x20, 0x50, 0x41, 0x52, 0x54, 0]

  const HEADER_SIZE_OFFSET := 12
  const HEADER_CRC_OFFSET := 16
  const PENTRIES_OFFSET := 72
  const PARTITION_COUNT_OFFSET := 80
  const PENTRY_SIZE_OFFSET := 84
  const PARTITION_CRC_OFFSET := 88
  const HEADER_FIELDS_END := 92

  function HeaderSize(h: seq<byte>): nat
    requires |h| >= HEADER_FIELDS_END
  {
    Get4(h, HEADER_SIZE_OFFSET) as nat
  }

  function ArrayLba(h: seq<byte>): nat
    requires |h| >= HEADER_FIELDS_END
  {
    Get8(h, PENTRIES_OFFSET) as nat
  }

  function EntryCount(h: seq<byte>): nat
    requires |h| >= HEADER_FIELDS_END
  {
    Get4(h, PARTITION_COUNT_OFFSET) as nat
  }

  function EntrySize(h: seq<byte>): nat
    requires |h| >= HEADER_FIELDS_END
  {
    Get4(h, PENTRY_SIZE_OFFSET) as nat
  }

  /** The size of the entries array, as the 32-bit product that the code forms. */
  function ArrayBytes(h: seq<byte>): nat
    requires |h| >= HEADER_FIELDS_END
  {
    (EntryCount(h) * EntrySize(h)) % 0x1_0000_0000
  }

  function ArraySum(h: seq<byte>): word
    requires |h| >= HEADER_FIELDS_END
  {
    Get4(h, PARTITION_CRC_OFFSET)
  }

  /** A block that holds all header fields and the bytes its checksum covers. */
  predicate Header(h: seq<byte>) {
    |h| >= HEADER_FIELDS_END && HeaderSize(h) <= |h|
  }

  // ---------- Checksum, state and the two kinds of rewrite ----------

  /** The header with its checksum field zeroed, as the checksum is calculated. */
  function Cleared(h: seq<byte>): (z: seq<byte>)
    requires |h| >= HEADER_FIELDS_END
    ensures |z| == |h|
  {
    Put4(h, HEADER_CRC_OFFSET, 0)
  }

  function SumOf(crc: Checksum, h: seq<byte>): word
    requires Header(h)
  {
    crc(Cleared(h)[..HeaderSize(h)])
  }

  /** The header with its checksum field recomputed. */
  function Seal(crc: Checksum, h: seq<byte>): (s: seq<byte>)
    requires Header(h)
    ensures |s| == |h|
  {
    Put4(h, HEADER_CRC_OFFSET, SumOf(crc, h))
  }

  /** gpt_get_state: a checksum mismatch overrides a bad signature. */
  function StateOf(crc: Checksum, h: seq<byte>): State
    requires Header(h)
  {
    var s := if h[..9] != SIGNATURE then BadSignature else Ok;
    if SumOf(crc, h) != Get4(h, HEADER_CRC_OFFSET) then BadCrc else s
  }

  function Marked(h: seq<byte>, state: State): (m: seq<byte>)
    requires |h| >= HEADER_FIELDS_END && state != BadCrc
    ensures |m| == |h|
  {
    if state == Ok then Splice(h, 0, SIGNATURE) else Splice(h, 0, [0])
  }

  /** gpt_set_state: mark the signature and recompute the checksum. */
  function WithState(crc: Checksum, h: seq<byte>, state: State): (s: seq<byte>)
    requires Header(h) && state != BadCrc
    ensures |s| == |h|
  {
    MarkedIsHeader(h, state);
    Seal(crc, Marked(h, state))
  }

  /** The header part of gpt2_set_boot_chain: store an array checksum, then seal. */
  function WithArraySum(crc: Checksum, h: seq<byte>, sum: word): (s: seq<byte>)
    requires Header(h)
    ensures |s| == |h|
  {
    PutSumIsHeader(h, sum);
    Seal(crc, Put4(h, PARTITION_CRC_OFFSET, sum))
  }

  /** Storing an array checksum and sealing over n bytes, which another header may have told. */
  function StoredOver(crc: Checksum, h: seq<byte>, sum: word, n: nat): (s: seq<byte>)
    requires |h| >= HEADER_FIELDS_END && n <= |h|
    ensures |s| == |h|
  {
    var p := Put4(h, PARTITION_CRC_OFFSET, sum);
    Put4(p, HEADER_CRC_OFFSET, crc(Cleared(p)[..n]))
  }

  /** Over its own size this is the usual rewrite. */
  lemma StoredOverOwnSize(crc: Checksum, h: seq<byte>, sum: word)
    requires Header(h)
    ensures StoredOver(crc, h, sum, HeaderSize(h)) == WithArraySum(crc, h, sum)
  {
    PutSumIsHeader(h, sum);
  }

  // ---------- Fields that no rewrite touches ----------

  /** The two headers describe the same array geometry. */
  ghost predicate SameGeometry(a: seq<byte>, b: seq<byte>) {
    && |a| == |b| >= HEADER_FIELDS_END
    && HeaderSize(a) == HeaderSize(b) && ArrayLba(a) == ArrayLba(b)
    && EntryCount(a) == EntryCount(b) && EntrySize(a) == EntrySize(b)
  }

  lemma AgreeOnGeometry(a: seq<byte>, b: seq<byte>)
    requires |a| == |b| >= HEADER_FIELDS_END
    requires forall i :: 12 <= i < 16 || 72 <= i < 88 ==> a[i] == b[i]
    ensures SameGeometry(a, b)
  {
    GetAgree(a, b, 12);
    GetAgree(a, b, 72);
    GetAgree(a, b, 76);
    GetAgree(a, b, 80);
    GetAgree(a, b, 84);
  }

  lemma MarkedIsHeader(h: seq<byte>, state: State)
    requires |h| >= HEADER_FIELDS_END && state != BadCrc
    ensures SameGeometry(Marked(h, state), h)
    ensures ArraySum(Marked(h, state)) == ArraySum(h)
  {
    AgreeOnGeometry(Marked(h, state), h);
    GetAgree(Marked(h, state), h, 88);
  }

  lemma PutSumIsHeader(h: seq<byte>, sum: word)
    requires |h| >= HEADER_FIELDS_END
    ensures SameGeometry(Put4(h, PARTITION_CRC_OFFSET, sum), h)
    ensures ArraySum(Put4(h, PARTITION_CRC_OFFSET, sum)) == sum
    ensures Put4(h, PARTITION_CRC_OFFSET, sum)[..9] == h[..9]
  {
    AgreeOnGeometry(Put4(h, PARTITION_CRC_OFFSET, sum), h);
    GetPut(h, PARTITION_CRC_OFFSET, sum);
  }

  /** Sealing keeps every field but the header checksum, which it makes right. */
  lemma SealKeeps(crc: Checksum, h: seq<byte>)
    requires Header(h)
    ensures SameGeometry(Seal(crc, h), h) && ArraySum(Seal(crc, h)) == ArraySum(h)
    ensures Seal(crc, h)[..9] == h[..9]
    ensures Cleared(Seal(crc, h)) == Cleared(h)
    ensures Get4(Seal(crc, h), HEADER_CRC_OFFSET) == SumOf(crc, h) == SumOf(crc, Seal(crc, h))
  {
    var c := SumOf(crc, h);
    AgreeOnGeometry(Seal(crc, h), h);
    GetAgree(Seal(crc, h), h, 88);
    GetPut(h, HEADER_CRC_OFFSET, c);
    PutPut(h, HEADER_CRC_OFFSET, c, 0);
  }

  /** A sealed header is never GPT_BAD_CRC; its state is told by its signature alone. */
  lemma SealedState(crc: Checksum, h: seq<byte>)
    requires Header(h)
    ensures Header(Seal(crc, h))
    ensures StateOf(crc, Seal(crc, h)) == if h[..9] == SIGNATURE then Ok else BadSignature
  {
    SealKeeps(crc, h);
  }

  /** What is sealed already is left alone by sealing. */
  lemma SealSound(crc: Checksum, h: seq<byte>)
    requires Header(h) && StateOf(crc, h) != BadCrc
    ensures Seal(crc, h) == h
  {
    PutGet(h, HEADER_CRC_OFFSET, 0);
  }

  /** Sealing looks at the header only with its checksum cleared. */
  lemma SealOfCleared(crc: Checksum, a: seq<byte>, b: seq<byte>)
    requires Header(a) && Header(b) && Cleared(a) == Cleared(b)
    ensures Seal(crc, a) == Seal(crc, b)
  {
    SameCleared(a, b);
    var c := SumOf(crc, a);
    PutPut(a, HEADER_CRC_OFFSET, 0, c);
    PutPut(b, HEADER_CRC_OFFSET, 0, c);
  }

  lemma SameCleared(a: seq<byte>, b: seq<byte>)
    requires Header(a) && Header(b) && Cleared(a) == Cleared(b)
    ensures HeaderSize(a) == HeaderSize(b)
  {
    GetAgree(a, Cleared(a), 12);
    GetAgree(b, Cleared(b), 12);
  }

  // ---------- Setting and getting the state ----------

  /** gpt_get_state after gpt_set_state returns the state set, whatever the header held;
      nothing else about the tables is changed. */
  lemma SetThenGet(crc: Checksum, h: seq<byte>, state: State)
    requires Header(h) && state != BadCrc
    ensures Header(WithState(crc, h, state))
    ensures StateOf(crc, WithState(crc, h, state)) == state
    ensures SameGeometry(WithState(crc, h, state), h)
    ensures ArraySum(WithState(crc, h, state)) == ArraySum(h)
  {
    MarkedIsHeader(h, state);
    var m := Marked(h, state);
    SealKeeps(crc, m);
    SealedState(crc, m);
    if state == Ok {
      assert m[..9] == SIGNATURE;
    } else {
      assert m[..9][0] == 0 && SIGNATURE[0] == 0x45;
    }
  }

  /** Storing an array checksum keeps the signature and makes the header checksum right. */
  lemma ArraySumStored(crc: Checksum, h: seq<byte>, sum: word)
    requires Header(h)
    ensures Header(WithArraySum(crc, h, sum))
    ensures StateOf(crc, WithArraySum(crc, h, sum)) == if h[..9] == SIGNATURE then Ok else BadSignature
    ensures SameGeometry(WithArraySum(crc, h, sum), h)
    ensures ArraySum(WithArraySum(crc, h, sum)) == sum
  {
    PutSumIsHeader(h, sum);
    SealKeeps(crc, Put4(h, PARTITION_CRC_OFFSET, sum));
    SealedState(crc, Put4(h, PARTITION_CRC_OFFSET, sum));
  }

  // ---------- A good header is determined by its fields ----------

  /** The header with its signature and both checksums blanked. */
  function Blank(h: seq<byte>): (b: seq<byte>)
    requires |h| >= HEADER_FIELDS_END
    ensures |b| == |h|
  {
    Put4(Put4(Splice(h, 0, SIGNATURE), HEADER_CRC_OFFSET, 0), PARTITION_CRC_OFFSET, 0)
  }

  ghost predicate InRest(i: int) {
    9 <= i < 16 || 20 <= i < 88 || 92 <= i
  }

  /** Blanking keeps exactly the bytes outside the three fields. */
  lemma SameBlank(a: seq<byte>, b: seq<byte>)
    requires |a| == |b| >= HEADER_FIELDS_END
    ensures Blank(a) == Blank(b) <==> forall i :: 0 <= i < |a| && InRest(i) ==> a[i] == b[i]
  {
    if Blank(a) == Blank(b) {
      forall i | 0 <= i < |a| && InRest(i) ensures a[i] == b[i] {
        assert Blank(a)[i] == a[i] && Blank(b)[i] == b[i];
      }
    }
    if forall i :: 0 <= i < |a| && InRest(i) ==> a[i] == b[i] {
      forall i | 0 <= i < |a| ensures Blank(a)[i] == Blank(b)[i] {
      }
    }
  }

  lemma SealKeepsBlank(crc: Checksum, h: seq<byte>)
    requires Header(h)
    ensures Blank(Seal(crc, h)) == Blank(h)
  {
    SameBlank(Seal(crc, h), h);
  }

  lemma SetKeepsBlank(crc: Checksum, h: seq<byte>, state: State)
    requires Header(h) && state != BadCrc
    ensures Blank(WithState(crc, h, state)) == Blank(h)
  {
    MarkedIsHeader(h, state);
    SealKeepsBlank(crc, Marked(h, state));
    SameBlank(Marked(h, state), h);
  }

  lemma StoreKeepsBlank(crc: Checksum, h: seq<byte>, sum: word)
    requires Header(h)
    ensures Blank(WithArraySum(crc, h, sum)) == Blank(h)
  {
    PutSumIsHeader(h, sum);
    SealKeepsBlank(crc, Put4(h, PARTITION_CRC_OFFSET, sum));
    SameBlank(Put4(h, PARTITION_CRC_OFFSET, sum), h);
  }

  /** Two good headers with one array checksum that agree outside the signature and the checksums
      are equal: repairing what was corrupted restores it byte for byte. */
  lemma GoodHeaderDetermined(crc: Checksum, a: seq<byte>, b: seq<byte>)
    requires Header(a) && Header(b) && |a| == |b| && Blank(a) == Blank(b)
    requires StateOf(crc, a) == Ok && StateOf(crc, b) == Ok && ArraySum(a) == ArraySum(b)
    ensures a == b
  {
    SameBlank(a, b);
    SameClearedBytes(a, b);
    SealOfCleared(crc, a, b);
    SealSound(crc, a);
    SealSound(crc, b);
  }

  lemma SameClearedBytes(a: seq<byte>, b: seq<byte>)
    requires |a| == |b| >= HEADER_FIELDS_END && a[..9] == SIGNATURE == b[..9] && ArraySum(a) == ArraySum(b)
    requires forall i :: 0 <= i < |a| && InRest(i) ==> a[i] == b[i]
    ensures Cleared(a) == Cleared(b)
  {
    SameField(a, b, PARTITION_CRC_OFFSET);
    forall i | 0 <= i < |a| && !(16 <= i < 20) ensures a[i] == b[i] {
      if i < 9 {
        assert a[..9][i] == b[..9][i];
      } else {
        assert InRest(i) || 88 <= i < 92;
      }
    }
  }

  lemma SameField(a: seq<byte>, b: seq<byte>, off: nat)
    requires |a| == |b| && off + 4 <= |a| && Get4(a, off) == Get4(b, off)
    ensures forall i :: off <= i < off + 4 ==> a[i] == b[i]
  {
    BytesOfJoin(a[off], a[off + 1], a[off + 2], a[off + 3]);
    BytesOfJoin(b[off], b[off + 1], b[off + 2], b[off + 3]);
  }

  // ---------- The same, byte by byte ----------

  /** Where the fields lie: section 5.3.2 of the UEFI Specification. */
  lemma FieldsAt(h: seq<byte>)
    requires |h| >= 92
    ensures HeaderSize(h) == Get4(h, 12) as nat && ArrayLba(h) == Get8(h, 72) as nat
    ensures EntryCount(h) == Get4(h, 80) as nat && EntrySize(h) == Get4(h, 84) as nat && ArraySum(h) == Get4(h, 88)
    ensures ArrayBytes(h) == (Get4(h, 80) as nat * Get4(h, 84) as nat) % 0x1_0000_0000
  {
  }

  /** z is h with its checksum field zeroed. */
  ghost predicate WithoutSum(h: seq<byte>, z: seq<byte>) {
    |z| == |h| >= 92 && forall i :: 0 <= i < |h| ==> z[i] == if 16 <= i < 20 then 0 else h[i]
  }

  /** "EFI PART" and a NUL. */
  ghost predicate HasSignature(h: seq<byte>) {
    && |h| >= 92 && h[0] == 0x45 && h[1] == 0x46 && h[2] == 0x49 && h[3] == 0x20 && h[4] == 0x50 && h[5] == 0x41
    && h[6] == 0x52 && h[7] == 0x54 && h[8] == 0
  }

  lemma NoSum(h: seq<byte>, z: seq<byte>)
    requires WithoutSum(h, z)
    ensures z == Cleared(h)
  {
    assert Byte0(0) == Byte1(0) == Byte2(0) == Byte3(0) == 0;
    forall i | 0 <= i < |h| ensures z[i] == Cleared(h)[i] {
    }
  }

  lemma SignatureBytes(h: seq<byte>)
    requires |h| >= 92
    ensures h[..9] == SIGNATURE <==> HasSignature(h)
  {
    var p := h[..9];
    assert p[0] == h[0] && p[1] == h[1] && p[2] == h[2] && p[3] == h[3] && p[4] == h[4];
    assert p[5] == h[5] && p[6] == h[6] && p[7] == h[7] && p[8] == h[8];
  }

  /** A header is bad by its checksum exactly if the bytes that it covers, with the checksum taken as
      zero, have another one; otherwise its nine signature bytes decide. */
  lemma StateIs(crc: Checksum, h: seq<byte>, z: seq<byte>)
    requires Header(h) && WithoutSum(h, z)
    ensures StateOf(crc, h) == BadCrc <==> crc(z[..HeaderSize(h)]) != Get4(h, 16)
    ensures StateOf(crc, h) == Ok <==> HasSignature(h) && crc(z[..HeaderSize(h)]) == Get4(h, 16)
  {
    NoSum(h, z);
    SignatureBytes(h);
  }

  /** Sealing writes the checksum of the result at byte 16, and nothing else. */
  lemma SealBytes(crc: Checksum, h: seq<byte>, w: seq<byte>, z: seq<byte>)
    requires Header(h) && w == Seal(crc, h) && WithoutSum(w, z)
    ensures Get4(w, 16) == crc(z[..HeaderSize(h)])
    ensures forall i {:trigger w[i]} :: 0 <= i < |h| && !(16 <= i < 20) ==> w[i] == h[i]
  {
    SealKeeps(crc, h);
    NoSum(w, z);
  }

  lemma MarkedBytes(h: seq<byte>, state: State, m: seq<byte>)
    requires |h| >= 92 && state != BadCrc && m == Marked(h, state)
    ensures if state == Ok then HasSignature(m) else m[0] == 0 && forall i :: 1 <= i < 9 ==> m[i] == h[i]
    ensures forall i {:trigger m[i]} :: 9 <= i < |h| ==> m[i] == h[i]
  {
    if state == Ok {
      assert m[..9] == SIGNATURE;
      SignatureBytes(m);
    }
  }

  /** Setting a state writes the nine bytes of the signature, or a zero over the first of them, and the
      checksum of the result at byte 16; no other byte changes. */
  lemma SetBytes(crc: Checksum, h: seq<byte>, state: State, w: seq<byte>, z: seq<byte>)
    requires Header(h) && state != BadCrc && w == WithState(crc, h, state) && WithoutSum(w, z)
    ensures if state == Ok then HasSignature(w) else w[0] == 0 && forall i :: 1 <= i < 9 ==> w[i] == h[i]
    ensures Get4(w, 16) == crc(z[..HeaderSize(h)])
    ensures forall i {:trigger w[i]} :: 9 <= i < |h| && !(16 <= i < 20) ==> w[i] == h[i]
  {
    MarkedIsHeader(h, state);
    var m := Marked(h, state);
    MarkedBytes(h, state, m);
    SealBytes(crc, m, w, z);
  }

  /** Storing an array checksum writes it at byte 88 and the checksum of the result at byte 16; no other
      byte changes. */
  lemma StoreBytes(crc: Checksum, h: seq<byte>, sum: word, w: seq<byte>, z: seq<byte>)
    requires Header(h) && w == WithArraySum(crc, h, sum) && WithoutSum(w, z)
    ensures Get4(w, 88) == sum && Get4(w, 16) == crc(z[..HeaderSize(h)])
    ensures forall i {:trigger w[i]} :: 0 <= i < |h| && !(16 <= i < 20) && !(88 <= i < 92) ==> w[i] == h[i]
  {
    PutSumIsHeader(h, sum);
    var p := Put4(h, PARTITION_CRC_OFFSET, sum);
    SealBytes(crc, p, w, z);
    GetPut(h, PARTITION_CRC_OFFSET, sum);
    GetAgree(w, p, 88);
  }
}
