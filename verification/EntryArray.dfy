/** The entries array as bytes, and the two functions that work on it in place:
    gpt_pentry_seek and gpt_boot_chain_swap. */
module EntryArray {
  import opened Bytes
  import opened PartitionNames
  import opened BootChain

  // ---------- Bytes and entries ----------

  /** Where entry k starts. */
  function EntryPos(k: nat, size: nat): nat {
    if k == 0 then 0 else EntryPos(k - 1, size) + size
  }

  lemma {:induction false} EntryPosIsProduct(k: nat, size: nat)
    ensures EntryPos(k, size) == k * size
  {
    if k > 0 {
      EntryPosIsProduct(k - 1, size);
    }
  }

  lemma {:induction false} InBounds(k: nat, n: nat, size: nat)
    requires k < n
    ensures EntryPos(k, size) + size <= EntryPos(n, size)
    decreases n
  {
    if k < n - 1 {
      InBounds(k, n - 1, size);
    }
  }

  function EntriesOf(buf: seq<byte>, size: nat): (es: seq<Entry>)
    requires size >= PTN_ENTRY_SIZE
    ensures Entries(es) && forall k :: 0 <= k < |es| ==> |es[k]| == size
  {
    if |buf| < size then [] else [buf[..size]] + EntriesOf(buf[size..], size)
  }

  function Flatten(es: seq<Entry>): seq<byte> {
    if es == [] then [] else es[0] + Flatten(es[1..])
  }

  lemma {:induction false} FlattenEntries(buf: seq<byte>, size: nat, n: nat)
    requires size >= PTN_ENTRY_SIZE && |buf| == EntryPos(n, size)
    ensures |EntriesOf(buf, size)| == n && Flatten(EntriesOf(buf, size)) == buf
  {
    if n > 0 {
      assert |buf[size..]| == EntryPos(n - 1, size);
      FlattenEntries(buf[size..], size, n - 1);
    }
  }

  lemma {:induction false} EntriesFlatten(es: seq<Entry>, size: nat)
    requires size >= PTN_ENTRY_SIZE && forall k :: 0 <= k < |es| ==> |es[k]| == size
    ensures EntriesOf(Flatten(es), size) == es && |Flatten(es)| == |es| * size
  {
    if es != [] {
      EntriesFlatten(es[1..], size);
      assert Flatten(es)[size..] == Flatten(es[1..]);
    }
  }

  lemma {:induction false} EntryAt(buf: seq<byte>, size: nat, n: nat, k: nat)
    requires size >= PTN_ENTRY_SIZE && |buf| == EntryPos(n, size) && k < n
    ensures EntryPos(k, size) + size <= |buf|
    ensures |EntriesOf(buf, size)| == n && EntriesOf(buf, size)[k] == buf[EntryPos(k, size)..EntryPos(k, size) + size]
  {
    InBounds(k, n, size);
    FlattenEntries(buf, size, n);
    if k > 0 {
      assert |buf[size..]| == EntryPos(n - 1, size);
      EntryAt(buf[size..], size, n - 1, k - 1);
      assert EntryPos(k - 1, size) + size == EntryPos(k, size);
      assert buf[size..][EntryPos(k - 1, size)..EntryPos(k - 1, size) + size]
          == buf[EntryPos(k, size)..EntryPos(k, size) + size];
    }
  }

  /** Entry k is the size bytes at its position. */
  ghost predicate Laid(es: seq<Entry>, buf: seq<byte>, size: nat) {
    forall k {:trigger es[k]} :: 0 <= k < |es| ==>
        EntryPos(k, size) + size <= |buf| && es[k] == buf[EntryPos(k, size)..EntryPos(k, size) + size]
  }

  lemma EntriesLaid(buf: seq<byte>, size: nat, n: nat)
    requires size >= PTN_ENTRY_SIZE && |buf| == EntryPos(n, size)
    ensures |EntriesOf(buf, size)| == n && Laid(EntriesOf(buf, size), buf, size)
  {
    FlattenEntries(buf, size, n);
    forall k | 0 <= k < n
      ensures EntryPos(k, size) + size <= |buf|
      ensures EntriesOf(buf, size)[k] == buf[EntryPos(k, size)..EntryPos(k, size) + size]
    {
      EntryAt(buf, size, n, k);
    }
  }

  // ---------- gpt_pentry_seek ----------

  /** The loop body: copy out the name characters and compare. */
  method EntryMatches(name: string, buf: array<byte>, at: nat, ghost e: Entry) returns (found: bool)
    requires ValidName(name) && at + |e| <= buf.Length && IsEntry(e) && e == buf[at..at + |e|]
    ensures found == Matches(name, e)
  {
    var pentryName := at + PARTITION_NAME_OFFSET;
    var name8 := new char[NAME_CHARS];
    for i := 0 to NAME_CHARS
      invariant forall c :: 0 <= c < i ==> name8[c] == NameChar(e, c)
    {
      assert e[PARTITION_NAME_OFFSET + 2 * i] == buf[pentryName + i * 2];
      name8[i] := buf[pentryName + i * 2] as char;
    }
    var len := |name|;
    found := name8[..len] == name && (name8[len] == '\0' || name8[len..len + 4] == "bak\0");
    assert found == Matches(name, e) by {
      assert name8[..len] == name <==> forall i :: 0 <= i < len ==> NameChar(e, i) == name[i];
      BakSlice(name8[..], len);
    }
  }

  lemma BakSlice(s: string, n: nat)
    requires n + 4 <= |s|
    ensures s[n..n + 4] == "bak\0" <==> s[n] == 'b' && s[n + 1] == 'a' && s[n + 2] == 'k' && s[n + 3] == '\0'
  {
    var t := s[n..n + 4];
    assert t[0] == s[n] && t[1] == s[n + 1] && t[2] == s[n + 2] && t[3] == s[n + 3];
  }

  /** One turn of the loop: the entry at a byte position, and that there is a next position. */
  method TestEntry(name: string, buf: array<byte>, at: nat, size: nat, ghost es: seq<Entry>, ghost j: nat)
    returns (found: bool)
    requires ValidName(name) && size >= PTN_ENTRY_SIZE && Entries(es) && Laid(es, buf[..], size)
    requires buf.Length == EntryPos(|es|, size) && at == EntryPos(j, size) < buf.Length && j <= |es|
    ensures j < |es| && EntryPos(j + 1, size) == at + size && found == Matches(name, es[j])
  {
    EntryBytes(es, buf[..], size, j);
    assert buf[at..at + size] == buf[..][at..at + size];
    found := EntryMatches(name, buf, at, es[j]);
  }

  /** The byte position of the first matching entry from position `from` on, or -1.
      `es` are the entries that the buffer holds, `k` the entry at `from`. */
  method PentrySeek(name: string, buf: array<byte>, from: nat, size: nat, ghost es: seq<Entry>, ghost k: nat)
    returns (pos: int)
    requires ValidName(name) && size >= PTN_ENTRY_SIZE && Entries(es) && Laid(es, buf[..], size)
    requires buf.Length == EntryPos(|es|, size) && from == EntryPos(k, size) && k <= |es|
    ensures var r := Seek(es, name, k);
      pos == if r == |es| then -1 else EntryPos(r, size)
  {
    ghost var j := k;
    var pentry := from;
    while pentry + PARTITION_NAME_OFFSET < buf.Length
      invariant k <= j <= |es| && pentry == EntryPos(j, size)
      invariant Seek(es, name, j) == Seek(es, name, k)
    {
      var found := TestEntry(name, buf, pentry, size, es, j);
      if found {
        return pentry;
      }
      pentry := pentry + size;
      j := j + 1;
    }
    SeekEnds(|es|, size, j);
    return -1;
  }

  lemma EntryBytes(es: seq<Entry>, buf: seq<byte>, size: nat, j: nat)
    requires size >= PTN_ENTRY_SIZE && Laid(es, buf, size) && |buf| == EntryPos(|es|, size) && j <= |es|
    requires EntryPos(j, size) < |buf|
    ensures j < |es| && EntryPos(j, size) + size <= |buf| && EntryPos(j + 1, size) == EntryPos(j, size) + size
    ensures es[j] == buf[EntryPos(j, size)..EntryPos(j, size) + size] && |es[j]| == size
  {
    InBounds(j, |es|, size);
  }

  lemma SeekEnds(n: nat, size: nat, j: nat)
    requires size >= PTN_ENTRY_SIZE && j <= n && EntryPos(j, size) + PARTITION_NAME_OFFSET >= EntryPos(n, size)
    ensures j == n
  {
    if j < n {
      InBounds(j, n, size);
    }
  }

  // ---------- gpt_boot_chain_swap ----------

  function Exchanged(buf: seq<byte>, p: nat, q: nat): (r: seq<byte>)
    requires p + PTN_ENTRY_SIZE <= q && q + PTN_ENTRY_SIZE <= |buf|
    ensures |r| == |buf|
    ensures forall x :: p <= x < p + PTN_ENTRY_SIZE ==> r[x] == buf[q + (x - p)]
    ensures forall x :: q <= x < q + PTN_ENTRY_SIZE ==> r[x] == buf[p + (x - q)]
    ensures forall x :: 0 <= x < |buf| && !(p <= x < p + PTN_ENTRY_SIZE) && !(q <= x < q + PTN_ENTRY_SIZE) ==>
              r[x] == buf[x]
  {
    seq(|buf|, x requires 0 <= x < |buf| =>
      if p <= x < p + PTN_ENTRY_SIZE then buf[q + (x - p)]
      else if q <= x < q + PTN_ENTRY_SIZE then buf[p + (x - q)]
      else buf[x])
  }

  /** It is two copies, the first of which overwrites what the second one needs. */
  lemma CopiesExchange(buf: seq<byte>, half: seq<byte>, r: seq<byte>, p: nat, q: nat)
    requires p + PTN_ENTRY_SIZE <= q && q + PTN_ENTRY_SIZE <= |buf|
    requires half == Splice(buf, p, buf[q..q + PTN_ENTRY_SIZE]) && r == Splice(half, q, buf[p..p + PTN_ENTRY_SIZE])
    ensures r == Exchanged(buf, p, q)
  {
    forall x | 0 <= x < |buf| ensures r[x] == Exchanged(buf, p, q)[x] {
    }
  }

  /** The entry-sized slices after the exchange at p and q. */
  lemma SliceAtFirst(buf: seq<byte>, size: nat, p: nat, q: nat)
    requires size >= PTN_ENTRY_SIZE && p + size <= q && q + size <= |buf|
    ensures Exchanged(buf, p, q)[p..p + size] == Headed(buf[q..q + size], buf[p..p + size])
  {
    var e, f := Exchanged(buf, p, q)[p..p + size], Headed(buf[q..q + size], buf[p..p + size]);
    forall x | 0 <= x < size ensures e[x] == f[x] {
      assert e[x] == Exchanged(buf, p, q)[p + x];
    }
  }

  lemma SliceAtSecond(buf: seq<byte>, size: nat, p: nat, q: nat)
    requires size >= PTN_ENTRY_SIZE && p + size <= q && q + size <= |buf|
    ensures Exchanged(buf, p, q)[q..q + size] == Headed(buf[p..p + size], buf[q..q + size])
  {
    var e, f := Exchanged(buf, p, q)[q..q + size], Headed(buf[p..p + size], buf[q..q + size]);
    forall x | 0 <= x < size ensures e[x] == f[x] {
      assert e[x] == Exchanged(buf, p, q)[q + x];
    }
  }

  lemma SliceElsewhere(buf: seq<byte>, size: nat, p: nat, q: nat, a: nat)
    requires size >= PTN_ENTRY_SIZE && p + size <= q && q + size <= |buf| && a + size <= |buf|
    requires a + size <= p || p + size <= a
    requires a + size <= q || q + size <= a
    ensures Exchanged(buf, p, q)[a..a + size] == buf[a..a + size]
  {
    var e, f := Exchanged(buf, p, q)[a..a + size], buf[a..a + size];
    forall x | 0 <= x < size ensures e[x] == f[x] {
      assert e[x] == Exchanged(buf, p, q)[a + x];
    }
  }

  lemma EntriesApart(k: nat, m: nat, size: nat)
    ensures k == m || EntryPos(k, size) + size <= EntryPos(m, size) || EntryPos(m, size) + size <= EntryPos(k, size)
  {
    if k < m {
      InBounds(k, m, size);
    } else if m < k {
      InBounds(m, k, size);
    }
  }

  lemma ExchangedEntries(es: seq<Entry>, fs: seq<Entry>, buf: seq<byte>, size: nat, i: nat, j: nat, p: nat, q: nat)
    requires size >= PTN_ENTRY_SIZE && Entries(es) && |fs| == |es| && i < j < |es|
    requires p == EntryPos(i, size) && q == EntryPos(j, size) && p + size <= q && q + size <= |buf|
    requires Laid(es, buf, size) && Laid(fs, Exchanged(buf, p, q), size)
    ensures fs == SwapEntries(es, i, j)
  {
    var gs := SwapEntries(es, i, j);
    forall k | 0 <= k < |es| ensures fs[k] == gs[k] {
      EntriesApart(k, i, size);
      EntriesApart(k, j, size);
      ExchangedEntry(es, fs[k], buf, size, i, j, k, p, q, EntryPos(k, size));
    }
  }

  lemma ExchangedEntry(
    es: seq<Entry>, f: Entry, buf: seq<byte>, size: nat, i: nat, j: nat, k: nat, p: nat, q: nat, a: nat)
    requires size >= PTN_ENTRY_SIZE && Entries(es) && i < j < |es| && k < |es|
    requires p + size <= q && q + size <= |buf| && a + size <= |buf|
    requires es[i] == buf[p..p + size] && es[j] == buf[q..q + size] && es[k] == buf[a..a + size]
    requires if k == i then a == p else a + size <= p || p + size <= a
    requires if k == j then a == q else a + size <= q || q + size <= a
    requires f == Exchanged(buf, p, q)[a..a + size]
    ensures f == SwapEntries(es, i, j)[k]
  {
    if k == i {
      SliceAtFirst(buf, size, p, q);
    } else if k == j {
      SliceAtSecond(buf, size, p, q);
    } else {
      SliceElsewhere(buf, size, p, q, a);
    }
  }

  /** Exchanging 128 bytes at two entry positions is exchanging the two entries. */
  lemma SwapBytes(buf: seq<byte>, size: nat, n: nat, i: nat, j: nat)
    requires size >= PTN_ENTRY_SIZE && |buf| == EntryPos(n, size) && i < j < n
    ensures EntryPos(i, size) + size <= EntryPos(j, size) && EntryPos(j, size) + size <= |buf|
    ensures |EntriesOf(buf, size)| == n
    ensures EntriesOf(Exchanged(buf, EntryPos(i, size), EntryPos(j, size)), size)
              == SwapEntries(EntriesOf(buf, size), i, j)
  {
    InBounds(i, j, size);
    InBounds(j, n, size);
    var p, q := EntryPos(i, size), EntryPos(j, size);
    var r := Exchanged(buf, p, q);
    EntriesLaid(buf, size, n);
    EntriesLaid(r, size, n);
    ExchangedEntries(EntriesOf(buf, size), EntriesOf(r, size), buf, size, i, j, p, q);
  }

  lemma SwappableStep(es: seq<Entry>, names: seq<string>, ufs: bool, i: nat)
    requires Entries(es) && Separable(names) && i < |names|
    ensures forall n :: n in names[..i] || n in names[..i + 1] ==> ValidName(n)
    ensures Swappable(es, names[..i + 1], ufs) <==> Swappable(es, names[..i], ufs) || PairOf(es, names[i], ufs).Pair?
  {
    assert names[..i + 1] == names[..i] + [names[i]];
  }

  method BootChainSwap(buf: array<byte>, size: nat, names: seq<string>, ufs: bool, ghost n: nat) returns (r: int)
    requires size >= PTN_ENTRY_SIZE && buf.Length == EntryPos(n, size) && Separable(names)
    modifies buf
    ensures EntriesOf(buf[..], size) == SwapChain(EntriesOf(old(buf[..]), size), names, ufs)
    ensures r == if Swappable(EntriesOf(old(buf[..]), size), names, ufs) then 0 else 1
  {
    ghost var es := EntriesOf(buf[..], size);
    var backupNotFound := 1;
    for i := 0 to |names|
      invariant SameMatches(es, EntriesOf(buf[..], size), names)
      invariant SwapChain(EntriesOf(buf[..], size), names[i..], ufs) == SwapChain(es, names, ufs)
      invariant backupNotFound == if Swappable(es, names[..i], ufs) then 0 else 1
    {
      ghost var cur := EntriesOf(buf[..], size);
      assert names[i..][0] == names[i] && names[i..][1..] == names[i + 1..];
      SamePair(es, cur, names, names[i], ufs);
      SwapKeepsMatches(cur, names, names[i], ufs);
      SwappableStep(es, names, ufs, i);
      var swapped := SwapOneName(buf, size, names[i], ufs, n);
      if swapped {
        backupNotFound := 0;
      }
    }
    assert names[..|names|] == names;
    r := backupNotFound;
  }

  /** The positions of the first two matches, unless the name has no backup. */
  method FindPair(buf: array<byte>, size: nat, name: string, ghost es: seq<Entry>)
    returns (found: bool, p: nat, q: nat, ghost i: nat, ghost j: nat)
    requires ValidName(name) && size >= PTN_ENTRY_SIZE && Entries(es) && Laid(es, buf[..], size)
    requires buf.Length == EntryPos(|es|, size)
    ensures i == Seek(es, name, 0) && (i < |es| ==> j == Seek(es, name, i + 1))
    ensures found <==> i < |es| && j < |es|
    ensures found ==> p == EntryPos(i, size) && q == EntryPos(j, size)
  {
    found, p, q := false, 0, 0;
    i := Seek(es, name, 0);
    j := if i < |es| then Seek(es, name, i + 1) else 0;
    var ptnEntry := PentrySeek(name, buf, 0, size, es, 0);
    if ptnEntry == -1 {
      return;
    }
    assert ptnEntry + size == EntryPos(i + 1, size);
    var ptnBakEntry := PentrySeek(name, buf, ptnEntry + size, size, es, i + 1);
    if ptnBakEntry == -1 {
      return;
    }
    found, p, q := true, ptnEntry, ptnBakEntry;
  }

  /** The two positions are those of the pair. */
  lemma PairFound(es: seq<Entry>, name: string, ufs: bool, i: nat, j: nat, found: bool)
    requires Entries(es) && ValidName(name) && !Skipped(name, ufs)
    requires i == Seek(es, name, 0) && (i < |es| ==> j == Seek(es, name, i + 1))
    requires found <==> i < |es| && j < |es|
    ensures PairOf(es, name, ufs) == if found then Pair(i, j) else NoPair
  {
  }

  /** One turn of the loop: `continue` for a name that is passed over or has no backup. */
  method SwapOneName(buf: array<byte>, size: nat, name: string, ufs: bool, ghost n: nat) returns (swapped: bool)
    requires size >= PTN_ENTRY_SIZE && buf.Length == EntryPos(n, size) && ValidName(name)
    modifies buf
    ensures EntriesOf(buf[..], size) == SwapName(EntriesOf(old(buf[..]), size), name, ufs)
    ensures swapped == PairOf(EntriesOf(old(buf[..]), size), name, ufs).Pair?
  {
    ghost var es := EntriesOf(buf[..], size);
    EntriesLaid(buf[..], size, n);
    if Skipped(name, ufs) {
      return false;
    }
    var p, q;
    ghost var i, j;
    swapped, p, q, i, j := FindPair(buf, size, name, es);
    PairFound(es, name, ufs, i, j, swapped);
    if swapped {
      SwapPair(buf, p, q, size, n, i, j);
    }
  }

  /** The three memcpy calls. */
  method SwapPair(buf: array<byte>, p: nat, q: nat, size: nat, ghost n: nat, ghost i: nat, ghost j: nat)
    requires size >= PTN_ENTRY_SIZE && buf.Length == EntryPos(n, size) && i < j < n
    requires p == EntryPos(i, size) && q == EntryPos(j, size)
    modifies buf
    ensures |EntriesOf(old(buf[..]), size)| == n
    ensures EntriesOf(buf[..], size) == SwapEntries(EntriesOf(old(buf[..]), size), i, j)
  {
    ghost var all := buf[..];
    SwapBytes(all, size, n, i, j);
    var ptnSwap := buf[p..p + PTN_ENTRY_SIZE];
    CopyInto(buf, p, buf[q..q + PTN_ENTRY_SIZE]);
    ghost var half := buf[..];
    CopyInto(buf, q, ptnSwap);
    CopiesExchange(all, half, buf[..], p, q);
  }
}
