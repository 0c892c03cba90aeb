/** Partition names: the name test of gpt_pentry_seek and the swap list of gpt-utils.h. */
module PartitionNames {
  import opened Bytes

  const PARTITION_NAME_OFFSET := 56
  const PTN_ENTRY_SIZE := 128
  const NAME_CHARS := 36
  const BAK_EXT := "bak"

  /** An entry long enough to hold every field that is read or moved. */
  ghost predicate IsEntry(e: seq<byte>) {
    |e| >= PTN_ENTRY_SIZE
  }

  /** A character of the name buffer: every second byte of the UTF-16 name. */
  function NameChar(e: seq<byte>, i: nat): char
    requires |e| >= PTN_ENTRY_SIZE && i < NAME_CHARS
  {
    e[PARTITION_NAME_OFFSET + 2 * i] as char
  }

  /** A name whose match and backup match both end inside the name buffer. */
  predicate ValidName(name: string) {
    |name| + |BAK_EXT| < NAME_CHARS && '\0' !in name
  }

  /** The test in gpt_pentry_seek: strncmp of the name, then a NUL or exactly "bak". */
  predicate Matches(name: string, e: seq<byte>)
    requires ValidName(name) && |e| >= PTN_ENTRY_SIZE
  {
    var n := |name|;
    && (forall i :: 0 <= i < n ==> NameChar(e, i) == name[i])
    && (NameChar(e, n) == '\0' || IsBak(e, n))
  }

  predicate IsBak(e: seq<byte>, n: nat)
    requires |e| >= PTN_ENTRY_SIZE && n + 4 <= NAME_CHARS
  {
    NameChar(e, n) == 'b' && NameChar(e, n + 1) == 'a' && NameChar(e, n + 2) == 'k' && NameChar(e, n + 3) == '\0'
  }

  // ---------- What the test means ----------

  /** The characters before the first NUL. */
  function CString(s: string): string {
    if s == [] || s[0] == '\0' then [] else [s[0]] + CString(s[1..])
  }

  function Name8(e: seq<byte>): (s: string)
    requires |e| >= PTN_ENTRY_SIZE
    ensures |s| == NAME_CHARS && forall i :: 0 <= i < NAME_CHARS ==> s[i] == NameChar(e, i)
  {
    seq(NAME_CHARS, i requires 0 <= i < NAME_CHARS => NameChar(e, i))
  }

  function EntryName(e: seq<byte>): string
    requires |e| >= PTN_ENTRY_SIZE
  {
    CString(Name8(e))
  }

  lemma {:induction false} CStringEnds(s: string, n: nat)
    requires n < |s| && s[n] == '\0' && '\0' !in s[..n]
    ensures CString(s) == s[..n]
  {
    if n > 0 {
      assert s[0] == s[..n][0];
      assert s[1..][..n - 1] == s[..n][1..];
      CStringEnds(s[1..], n - 1);
    }
  }

  lemma {:induction false} CStringIs(s: string)
    ensures |CString(s)| <= |s| && CString(s) == s[..|CString(s)|] && '\0' !in CString(s)
    ensures |CString(s)| < |s| ==> s[|CString(s)|] == '\0'
  {
    if s != [] && s[0] != '\0' {
      CStringIs(s[1..]);
    }
  }

  /** An entry matches a name exactly when it is called that name or its backup. */
  lemma MatchesIff(name: string, e: seq<byte>)
    requires ValidName(name) && |e| >= PTN_ENTRY_SIZE
    ensures Matches(name, e) <==> EntryName(e) == name || EntryName(e) == name + "bak"
  {
    var s, n := Name8(e), |name|;
    if Matches(name, e) {
      assert s[..n] == name;
      if NameChar(e, n) == '\0' {
        CStringEnds(s, n);
      } else {
        assert s[..n + 3] == name + BAK_EXT;
        CStringEnds(s, n + 3);
      }
    }
    CStringIs(s);
    if EntryName(e) == name {
      assert forall i :: 0 <= i < n ==> s[..n][i] == s[i];
    } else if EntryName(e) == name + BAK_EXT {
      assert forall i :: 0 <= i < n + 3 ==> s[..n + 3][i] == s[i];
      assert (name + BAK_EXT)[n] == 'b' && (name + BAK_EXT)[n + 1] == 'a' && (name + BAK_EXT)[n + 2] == 'k';
      forall i | 0 <= i < n ensures NameChar(e, i) == name[i] {
        assert (name + BAK_EXT)[i] == name[i];
      }
    }
  }

  /** The same of the bytes: the characters of the name are every second one from byte 56 of the entry
      on, and behind them is a NUL or b, a, k and a NUL. */
  lemma MatchesBytes(name: string, e: seq<byte>, end: nat)
    requires ValidName(name) && |e| >= 128 && end == 56 + 2 * |name|
    ensures end + 6 < 128
    ensures Matches(name, e) <==>
              && (forall i :: 0 <= i < |name| ==> e[56 + 2 * i] as char == name[i])
              && (e[end] == 0 || (e[end] == 0x62 && e[end + 2] == 0x61 && e[end + 4] == 0x6b && e[end + 6] == 0))
  {
    forall i: nat | i < NAME_CHARS ensures NameChar(e, i) == e[56 + 2 * i] as char {
    }
    CharOfByte(e[end]);
    CharOfByte(e[end + 2]);
    CharOfByte(e[end + 4]);
    CharOfByte(e[end + 6]);
  }

  lemma CharOfByte(b: byte)
    ensures b as char == '\0' <==> b == 0
    ensures b as char == 'b' <==> b == 0x62
    ensures b as char == 'a' <==> b == 0x61
    ensures b as char == 'k' <==> b == 0x6b
  {
  }

  // ---------- Lists of names ----------

  /** Distinct names none of which is another's backup name. */
  ghost predicate Separable(names: seq<string>) {
    && (forall n :: n in names ==> ValidName(n))
    && (forall i, j :: 0 <= i < j < |names| ==> names[i] != names[j])
    && (forall m, n :: m in names && n in names ==> m != n + BAK_EXT)
  }

  /** No entry matches two names of a separable list. */
  lemma MatchesOne(names: seq<string>, m: string, n: string, e: seq<byte>)
    requires Separable(names) && m in names && n in names && IsEntry(e)
    requires Matches(m, e) && Matches(n, e)
    ensures m == n
  {
    MatchesIff(m, e);
    MatchesIff(n, e);
    if m + BAK_EXT == n + BAK_EXT {
      assert m == (m + BAK_EXT)[..|m|] && n == (n + BAK_EXT)[..|n|];
    }
  }

  const PTN_XBL := "xbl"

  const PTN_SWAP_LIST: seq<string> := [
    PTN_XBL, "abl", "aop", "apdp", "cmnlib", "cmnlib64",
    "devcfg", "dtbo", "hyp", "keymaster", "msadp",
    "qupfw", "storsec", "tz", "vbmeta", "vbmeta_system", "xbl_config"]

  /** On UFS every list name that starts with "xbl" is passed over. */
  predicate Skipped(name: string, ufs: bool) {
    ufs && PTN_XBL <= name
  }

  /** The position of a swap-list name, read off its length and first two characters. */
  ghost function Position(n: string): int {
    if |n| < 2 then -1
    else if n[0] == 'x' then (if |n| == 3 then 0 else 16)
    else if n[0] == 'a' then (if |n| == 4 then 3 else if n[1] == 'b' then 1 else 2)
    else if n[0] == 'c' then (if |n| == 6 then 4 else 5)
    else if n[0] == 'd' then (if n[1] == 'e' then 6 else 7)
    else if n[0] == 'h' then 8
    else if n[0] == 'k' then 9
    else if n[0] == 'm' then 10
    else if n[0] == 'q' then 11
    else if n[0] == 's' then 12
    else if n[0] == 't' then 13
    else if |n| == 6 then 14 else 15
  }

  lemma SwapListPositions()
    ensures |PTN_SWAP_LIST| == 17
    ensures forall i :: 0 <= i < 17 ==> Position(PTN_SWAP_LIST[i]) == i
  {
  }

  /** A name that fits the buffer and is nobody's backup name. */
  predicate Plain(n: string) {
    ValidName(n) && |n| > 0 && n[|n| - 1] != 'k'
  }

  lemma SwapListNames()
    ensures forall i :: 0 <= i < 17 ==> Plain(PTN_SWAP_LIST[i])
  {
    FirstNames();
    LastNames();
  }

  lemma FirstNames()
    ensures forall i :: 0 <= i < 9 ==> Plain(PTN_SWAP_LIST[i])
  {
    assert Plain(PTN_XBL) && Plain("abl") && Plain("aop") && Plain("apdp") && Plain("cmnlib");
    assert Plain("cmnlib64") && Plain("devcfg") && Plain("dtbo") && Plain("hyp");
  }

  lemma LastNames()
    ensures forall i :: 9 <= i < 17 ==> Plain(PTN_SWAP_LIST[i])
  {
    assert Plain("keymaster") && Plain("msadp") && Plain("qupfw") && Plain("storsec");
    assert Plain("tz") && Plain("vbmeta") && Plain("vbmeta_system") && Plain("xbl_config");
  }

  lemma SeparableIf(names: seq<string>)
    requires forall i :: 0 <= i < |names| ==> Position(names[i]) == i
    requires forall i :: 0 <= i < |names| ==> Plain(names[i])
    ensures Separable(names)
  {
    forall m, n | m in names && n in names ensures m != n + BAK_EXT {
      assert (n + BAK_EXT)[|n + BAK_EXT| - 1] == 'k';
    }
  }

  lemma SwapListSeparable()
    ensures Separable(PTN_SWAP_LIST)
  {
    SwapListPositions();
    SwapListNames();
    SeparableIf(PTN_SWAP_LIST);
  }
}
