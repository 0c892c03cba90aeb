/** gpt_pentry_seek and gpt_boot_chain_swap on the entries of a partition table: what the
    sequence of swaps amounts to, whatever the entries hold. */
module BootChain {
  import opened Bytes
  import opened PartitionNames

  type Entry = seq<byte>

  ghost predicate Entries(es: seq<Entry>) {
    forall k :: 0 <= k < |es| ==> IsEntry(es[k])
  }

  // ---------- Seek and swap ----------

  /** The first entry at or after `from` that matches, or |es|. */
  function Seek(es: seq<Entry>, name: string, from: nat): (k: nat)
    requires Entries(es) && ValidName(name) && from <= |es|
    ensures from <= k <= |es|
    ensures k < |es| ==> Matches(name, es[k])
    decreases |es| - from
  {
    if from == |es| || Matches(name, es[from]) then from else Seek(es, name, from + 1)
  }

  lemma {:induction false} SeekFindsFirst(es: seq<Entry>, name: string, from: nat)
    requires Entries(es) && ValidName(name) && from <= |es|
    ensures var k := Seek(es, name, from);
      forall i :: from <= i < k ==> !Matches(name, es[i])
    decreases |es| - from
  {
    if from < |es| {
      SeekFindsFirst(es, name, from + 1);
    }
  }

  datatype Pair = NoPair | Pair(first: nat, second: nat)

  /** The entries that the loop exchanges for one name: its first two matches. */
  function PairOf(es: seq<Entry>, name: string, ufs: bool): (p: Pair)
    requires Entries(es) && ValidName(name)
    ensures p.Pair? ==> p.first < p.second < |es| && Matches(name, es[p.first]) && Matches(name, es[p.second])
  {
    if Skipped(name, ufs) then NoPair else
    var i := Seek(es, name, 0);
    if i == |es| then NoPair else
    var j := Seek(es, name, i + 1);
    if j == |es| then NoPair else Pair(i, j)
  }

  function Head(e: Entry): seq<byte>
    requires |e| >= PTN_ENTRY_SIZE
  {
    e[..PTN_ENTRY_SIZE]
  }

  /** An entry with the first 128 bytes of another; anything longer stays behind. */
  function Headed(head: Entry, e: Entry): (r: Entry)
    requires |head| >= PTN_ENTRY_SIZE && |e| >= PTN_ENTRY_SIZE
    ensures |r| == |e|
  {
    head[..PTN_ENTRY_SIZE] + e[PTN_ENTRY_SIZE..]
  }

  function SwapEntries(es: seq<Entry>, i: nat, j: nat): (r: seq<Entry>)
    requires Entries(es) && i < |es| && j < |es|
    ensures |r| == |es| && Entries(r)
  {
    es[i := Headed(es[j], es[i])][j := Headed(es[i], es[j])]
  }

  function SwapName(es: seq<Entry>, name: string, ufs: bool): (r: seq<Entry>)
    requires Entries(es) && ValidName(name)
    ensures |r| == |es| && Entries(r)
  {
    match PairOf(es, name, ufs)
    case NoPair => es
    case Pair(i, j) => SwapEntries(es, i, j)
  }

  /** The loop over the swap list. */
  function SwapChain(es: seq<Entry>, names: seq<string>, ufs: bool): (r: seq<Entry>)
    requires Entries(es) && forall n :: n in names ==> ValidName(n)
    ensures |r| == |es| && Entries(r)
    decreases |names|
  {
    if names == [] then es else SwapChain(SwapName(es, names[0], ufs), names[1..], ufs)
  }

  /** Some list name that is not passed over has two matching entries. */
  ghost predicate Swappable(es: seq<Entry>, names: seq<string>, ufs: bool)
    requires Entries(es) && forall n :: n in names ==> ValidName(n)
  {
    exists n :: n in names && PairOf(es, n, ufs).Pair?
  }

  ghost predicate TwoMatches(es: seq<Entry>, name: string)
    requires Entries(es) && ValidName(name)
  {
    exists i, j :: 0 <= i < j < |es| && Matches(name, es[i]) && Matches(name, es[j])
  }

  lemma PairIff(es: seq<Entry>, name: string, ufs: bool)
    requires Entries(es) && ValidName(name)
    ensures PairOf(es, name, ufs).Pair? <==> !(ufs && "xbl" <= name) && TwoMatches(es, name)
  {
    var i := Seek(es, name, 0);
    SeekFindsFirst(es, name, 0);
    if i < |es| {
      SeekFindsFirst(es, name, i + 1);
    }
  }

  /** There is something to swap exactly when two entries match one name of the list, on UFS one that
      does not begin with xbl. */
  lemma SwappableIff(es: seq<Entry>, names: seq<string>, ufs: bool)
    requires Entries(es) && forall n :: n in names ==> ValidName(n)
    ensures Swappable(es, names, ufs) <==>
      (exists n :: n in names && !(ufs && "xbl" <= n) && TwoMatches(es, n))
  {
    forall n | n in names
      ensures PairOf(es, n, ufs).Pair? <==> !(ufs && "xbl" <= n) && TwoMatches(es, n)
    {
      PairIff(es, n, ufs);
    }
  }

  // ---------- Swapping a name disturbs no other ----------

  /** Every list name matches the same places in both arrays. */
  ghost predicate SameMatches(es: seq<Entry>, fs: seq<Entry>, names: seq<string>)
    requires Entries(es) && Entries(fs) && forall n :: n in names ==> ValidName(n)
  {
    |es| == |fs| && forall n, k :: n in names && 0 <= k < |es| ==> Matches(n, es[k]) == Matches(n, fs[k])
  }

  lemma MatchesHead(name: string, head: Entry, e: Entry)
    requires ValidName(name) && IsEntry(head) && IsEntry(e)
    ensures Matches(name, Headed(head, e)) == Matches(name, head)
  {
    assert forall i :: 0 <= i < NAME_CHARS ==> NameChar(Headed(head, e), i) == NameChar(head, i);
  }

  lemma SwapKeepsMatches(es: seq<Entry>, names: seq<string>, name: string, ufs: bool)
    requires Entries(es) && Separable(names) && name in names
    ensures SameMatches(es, SwapName(es, name, ufs), names)
  {
    var p := PairOf(es, name, ufs);
    if p.Pair? {
      var fs := SwapName(es, name, ufs);
      forall n, k | n in names && 0 <= k < |es| ensures Matches(n, es[k]) == Matches(n, fs[k]) {
        MatchesHead(n, es[p.second], es[p.first]);
        MatchesHead(n, es[p.first], es[p.second]);
        if k == p.first || k == p.second {
          OnlyOwnName(names, name, n, es[p.first]);
          OnlyOwnName(names, name, n, es[p.second]);
        }
      }
    }
  }

  lemma OnlyOwnName(names: seq<string>, name: string, n: string, e: Entry)
    requires Separable(names) && name in names && n in names && IsEntry(e) && Matches(name, e)
    ensures Matches(n, e) <==> n == name
  {
    if Matches(n, e) {
      MatchesOne(names, name, n, e);
    }
  }

  lemma {:induction false} SameSeek(es: seq<Entry>, fs: seq<Entry>, names: seq<string>, name: string, from: nat)
    requires Entries(es) && Entries(fs) && (forall n :: n in names ==> ValidName(n)) && name in names
    requires SameMatches(es, fs, names) && from <= |es|
    ensures Seek(es, name, from) == Seek(fs, name, from)
    decreases |es| - from
  {
    if from < |es| {
      SameSeek(es, fs, names, name, from + 1);
    }
  }

  lemma SamePair(es: seq<Entry>, fs: seq<Entry>, names: seq<string>, name: string, ufs: bool)
    requires Entries(es) && Entries(fs) && (forall n :: n in names ==> ValidName(n)) && name in names
    requires SameMatches(es, fs, names)
    ensures PairOf(es, name, ufs) == PairOf(fs, name, ufs)
  {
    SameSeek(es, fs, names, name, 0);
    var i := Seek(es, name, 0);
    if i < |es| {
      SameSeek(es, fs, names, name, i + 1);
    }
  }

  // ---------- The whole chain as one simultaneous exchange ----------

  /** Where the head of entry k comes from, computed on the original array only. */
  function Partner(es: seq<Entry>, names: seq<string>, ufs: bool, k: nat): nat
    requires Entries(es) && forall n :: n in names ==> ValidName(n)
  {
    if names == [] then k else
    match PairOf(es, names[0], ufs)
    case Pair(i, j) => if k == i then j else if k == j then i else Partner(es, names[1..], ufs, k)
    case NoPair => Partner(es, names[1..], ufs, k)
  }

  /** An entry either keeps its place or trades it with one that matches the same name. */
  lemma {:induction false} PartnerMatches(es: seq<Entry>, names: seq<string>, ufs: bool, k: nat)
    requires Entries(es) && (forall n :: n in names ==> ValidName(n)) && k < |es|
    ensures var p := Partner(es, names, ufs, k);
      && p < |es|
      && (p != k ==> exists n :: n in names && !Skipped(n, ufs) && Matches(n, es[k]) && Matches(n, es[p]))
  {
    if names != [] {
      PartnerMatches(es, names[1..], ufs, k);
    }
  }

  lemma {:induction false} SamePartner(
    es: seq<Entry>, fs: seq<Entry>, all: seq<string>, names: seq<string>, ufs: bool, k: nat)
    requires Entries(es) && Entries(fs) && (forall n :: n in all ==> ValidName(n))
    requires forall n :: n in names ==> n in all
    requires SameMatches(es, fs, all)
    ensures Partner(es, names, ufs, k) == Partner(fs, names, ufs, k)
    decreases |names|
  {
    if names != [] {
      SamePair(es, fs, all, names[0], ufs);
      SamePartner(es, fs, all, names[1..], ufs, k);
    }
  }

  lemma TailSeparable(names: seq<string>)
    requires Separable(names) && names != []
    ensures Separable(names[1..]) && names[0] !in names[1..]
  {
    assert forall n :: n in names[1..] ==> n in names;
  }

  /** An entry that matches one name has no partner under the others. */
  lemma PartnerOfOther(es: seq<Entry>, names: seq<string>, name: string, ufs: bool, k: nat)
    requires Entries(es) && Separable(names) && names != [] && k < |es|
    requires Matches(names[0], es[k])
    ensures Partner(es, names[1..], ufs, k) == k
  {
    TailSeparable(names);
    PartnerMatches(es, names[1..], ufs, k);
    var p := Partner(es, names[1..], ufs, k);
    if p != k {
      var n :| n in names[1..] && Matches(n, es[k]);
      MatchesOne(names, names[0], n, es[k]);
    }
  }

  /** Being partners is mutual: the swaps are disjoint exchanges of two. */
  lemma {:induction false} PartnerTwice(es: seq<Entry>, names: seq<string>, ufs: bool, k: nat)
    requires Entries(es) && Separable(names) && k < |es|
    ensures Partner(es, names, ufs, k) < |es|
    ensures Partner(es, names, ufs, Partner(es, names, ufs, k)) == k
  {
    PartnerMatches(es, names, ufs, k);
    if names != [] {
      TailSeparable(names);
      PartnerTwice(es, names[1..], ufs, k);
      var p := PairOf(es, names[0], ufs);
      if p.Pair? && k != p.first && k != p.second {
        PartnerOfOther(es, names, names[0], ufs, p.first);
        PartnerOfOther(es, names, names[0], ufs, p.second);
      }
    }
  }

  /** The chain of swaps moves every head to its partner's place at once. */
  lemma {:induction false} ChainIsPartner(es: seq<Entry>, names: seq<string>, ufs: bool, k: nat)
    requires Entries(es) && Separable(names) && k < |es|
    ensures Partner(es, names, ufs, k) < |es|
    ensures SwapChain(es, names, ufs)[k] == Headed(es[Partner(es, names, ufs, k)], es[k])
    decreases |names|
  {
    PartnerMatches(es, names, ufs, k);
    if names == [] {
      assert Headed(es[k], es[k]) == es[k];
    } else {
      var name, rest := names[0], names[1..];
      var fs := SwapName(es, name, ufs);
      TailSeparable(names);
      SwapKeepsMatches(es, names, name, ufs);
      SamePartner(es, fs, names, rest, ufs, k);
      ChainIsPartner(fs, rest, ufs, k);
      PartnerStep(es, names, ufs, k);
    }
  }

  /** One swap followed by the partners of the rest is the partners of all. */
  lemma PartnerStep(es: seq<Entry>, names: seq<string>, ufs: bool, k: nat)
    requires Entries(es) && Separable(names) && names != [] && k < |es|
    ensures var fs := SwapName(es, names[0], ufs);
      var q := Partner(es, names[1..], ufs, k);
      var p := Partner(es, names, ufs, k);
      && q < |es| && p < |es|
      && Headed(fs[q], fs[k]) == Headed(es[p], es[k])
  {
    PartnerMatches(es, names, ufs, k);
    PartnerMatches(es, names[1..], ufs, k);
    var pair := PairOf(es, names[0], ufs);
    if pair.Pair? {
      PartnerOfOther(es, names, names[0], ufs, pair.first);
      PartnerOfOther(es, names, names[0], ufs, pair.second);
      var q := Partner(es, names[1..], ufs, k);
      if k != pair.first && k != pair.second {
        TailSeparable(names);
        PartnerTwice(es, names[1..], ufs, k);
        assert q != pair.first && q != pair.second;
      }
    }
  }

  lemma ChainKeepsMatches(es: seq<Entry>, names: seq<string>, ufs: bool)
    requires Entries(es) && Separable(names)
    ensures SameMatches(es, SwapChain(es, names, ufs), names)
  {
    var fs := SwapChain(es, names, ufs);
    forall n, k | n in names && 0 <= k < |es| ensures Matches(n, es[k]) == Matches(n, fs[k]) {
      ChainIsPartner(es, names, ufs, k);
      PartnerMatches(es, names, ufs, k);
      var p := Partner(es, names, ufs, k);
      MatchesHead(n, es[p], es[k]);
      if p != k {
        var m :| m in names && Matches(m, es[k]) && Matches(m, es[p]);
        OnlyOwnName(names, m, n, es[k]);
        OnlyOwnName(names, m, n, es[p]);
      }
    }
  }

  // ---------- Results ----------

  /** Swapping the boot chain twice puts every entry back. */
  lemma SwapTwice(es: seq<Entry>, names: seq<string>, ufs: bool)
    requires Entries(es) && Separable(names)
    ensures SwapChain(SwapChain(es, names, ufs), names, ufs) == es
  {
    var fs := SwapChain(es, names, ufs);
    var gs := SwapChain(fs, names, ufs);
    ChainKeepsMatches(es, names, ufs);
    forall k | 0 <= k < |es| ensures gs[k] == es[k] {
      var p := Partner(es, names, ufs, k);
      PartnerTwice(es, names, ufs, k);
      SamePartner(es, fs, names, names, ufs, k);
      ChainIsPartner(fs, names, ufs, k);
      ChainIsPartner(es, names, ufs, k);
      ChainIsPartner(es, names, ufs, p);
      assert Headed(Headed(es[k], es[p]), Headed(es[p], es[k])) == es[k];
    }
  }

  function Heads(es: seq<Entry>): (hs: seq<seq<byte>>)
    requires Entries(es)
    ensures |hs| == |es|
  {
    seq(|es|, k requires 0 <= k < |es| => Head(es[k]))
  }

  lemma SwapIsExchange(es: seq<Entry>, i: nat, j: nat)
    requires Entries(es) && i < |es| && j < |es|
    ensures multiset(Heads(SwapEntries(es, i, j))) == multiset(Heads(es))
  {
    var hs := Heads(es);
    assert Heads(SwapEntries(es, i, j)) == hs[i := hs[j]][j := hs[i]];
  }

  /** No entry is lost or duplicated. */
  lemma {:induction false} SwapIsPermutation(es: seq<Entry>, names: seq<string>, ufs: bool)
    requires Entries(es) && forall n :: n in names ==> ValidName(n)
    ensures multiset(Heads(SwapChain(es, names, ufs))) == multiset(Heads(es))
    decreases |names|
  {
    if names != [] {
      var p := PairOf(es, names[0], ufs);
      if p.Pair? {
        SwapIsExchange(es, p.first, p.second);
      }
      SwapIsPermutation(SwapName(es, names[0], ufs), names[1..], ufs);
    }
  }

  /** The next match after k, if there is one. */
  ghost function Second(es: seq<Entry>, name: string, k: nat): (e: Entry)
    requires Entries(es) && ValidName(name) && k < |es|
    ensures |e| >= PTN_ENTRY_SIZE
  {
    var j := Seek(es, name, k + 1);
    if j < |es| then es[j] else es[k]
  }

  /** What a seek finds after the chain: a swapped name finds the entry that was its second match;
      every other list name finds the same entry in the same place. */
  lemma SeekAfterSwap(es: seq<Entry>, names: seq<string>, ufs: bool, name: string)
    requires Entries(es) && Separable(names) && name in names
    ensures var fs := SwapChain(es, names, ufs);
      var k := Seek(es, name, 0);
      && Seek(fs, name, 0) == k
      && (k < |es| ==>
            if !(ufs && "xbl" <= name) && TwoMatches(es, name)
            then fs[k][..128] == Second(es, name, k)[..128]
            else fs[k] == es[k])
  {
    var fs, k := SwapChain(es, names, ufs), Seek(es, name, 0);
    ChainKeepsMatches(es, names, ufs);
    SameSeek(es, fs, names, name, 0);
    PairIff(es, name, ufs);
    if k < |es| {
      ChainIsPartner(es, names, ufs, k);
      PartnerOfName(es, names, ufs, name, k);
      assert Headed(es[k], es[k]) == es[k];
    }
  }

  lemma {:induction false} PartnerOfName(es: seq<Entry>, names: seq<string>, ufs: bool, name: string, k: nat)
    requires Entries(es) && Separable(names) && name in names && k == Seek(es, name, 0) < |es|
    ensures Partner(es, names, ufs, k)
         == match PairOf(es, name, ufs) case Pair(_, j) => j case NoPair => k
    decreases |names|
  {
    TailSeparable(names);
    if names[0] == name {
      PartnerOfOther(es, names, name, ufs, k);
    } else {
      PartnerOfName(es, names[1..], ufs, name, k);
      var p := PairOf(es, names[0], ufs);
      if p.Pair? {
        OnlyOwnName(names, names[0], name, es[p.first]);
        OnlyOwnName(names, names[0], name, es[p.second]);
      }
    }
  }

  // ---------- What the loop exchanges, in terms of the entries alone ----------

  /** Entries i and j are the first two that match the name. */
  ghost predicate FirstTwo(es: seq<Entry>, name: string, i: nat, j: nat)
    requires Entries(es) && ValidName(name)
  {
    && i < j < |es| && Matches(name, es[i]) && Matches(name, es[j])
    && forall k :: 0 <= k < j && k != i ==> !Matches(name, es[k])
  }

  lemma PairIsFirstTwo(es: seq<Entry>, name: string, ufs: bool, i: nat, j: nat)
    requires Entries(es) && ValidName(name)
    ensures PairOf(es, name, ufs) == Pair(i, j) <==> !(ufs && "xbl" <= name) && FirstTwo(es, name, i, j)
  {
    var a := Seek(es, name, 0);
    SeekFindsFirst(es, name, 0);
    if a < |es| {
      SeekFindsFirst(es, name, a + 1);
    }
  }

  predicate InPair(k: nat, p: Pair) {
    p.Pair? && (k == p.first || k == p.second)
  }

  /** Entries that trade places are the pair of some name. */
  lemma {:induction false} PartnerIsPair(es: seq<Entry>, names: seq<string>, ufs: bool, k: nat)
    requires Entries(es) && (forall n :: n in names ==> ValidName(n)) && Partner(es, names, ufs, k) != k
    ensures exists n :: n in names && InPair(k, PairOf(es, n, ufs))
  {
    var p := PairOf(es, names[0], ufs);
    if !InPair(k, p) {
      PartnerIsPair(es, names[1..], ufs, k);
    }
  }

  /** The first two entries of a list name exchange their first 128 bytes, unless the storage is UFS
      and the name begins with xbl. */
  lemma FirstTwoExchanged(es: seq<Entry>, names: seq<string>, ufs: bool, name: string, i: nat, j: nat)
    requires Entries(es) && Separable(names) && name in names && !(ufs && "xbl" <= name) && FirstTwo(es, name, i, j)
    ensures var fs := SwapChain(es, names, ufs);
      fs[i] == es[j][..128] + es[i][128..] && fs[j] == es[i][..128] + es[j][128..]
  {
    PairIsFirstTwo(es, name, ufs, i, j);
    PartnerOfName(es, names, ufs, name, i);
    PartnerTwice(es, names, ufs, i);
    ChainIsPartner(es, names, ufs, i);
    ChainIsPartner(es, names, ufs, j);
  }

  /** Entry k is one of the first two of a name whose entries are exchanged. */
  ghost predicate Traded(es: seq<Entry>, names: seq<string>, ufs: bool, k: nat)
    requires Entries(es) && forall n :: n in names ==> ValidName(n)
  {
    exists n, i, j :: n in names && !(ufs && "xbl" <= n) && FirstTwo(es, n, i, j) && (k == i || k == j)
  }

  /** Every other entry is left as it is. */
  lemma OthersUntouched(es: seq<Entry>, names: seq<string>, ufs: bool, k: nat)
    requires Entries(es) && Separable(names) && k < |es| && !Traded(es, names, ufs, k)
    ensures SwapChain(es, names, ufs)[k] == es[k]
  {
    ChainIsPartner(es, names, ufs, k);
    if Partner(es, names, ufs, k) != k {
      PartnerIsPair(es, names, ufs, k);
      var n :| n in names && InPair(k, PairOf(es, n, ufs));
      PairIsFirstTwo(es, n, ufs, PairOf(es, n, ufs).first, PairOf(es, n, ufs).second);
    }
    assert es[k][..PTN_ENTRY_SIZE] + es[k][PTN_ENTRY_SIZE..] == es[k];
  }

  /** An entry whose list name is passed over, or has no second entry, is left as it is: on UFS every
      one that matches a name beginning with xbl. */
  lemma NotExchanged(es: seq<Entry>, names: seq<string>, ufs: bool, name: string, k: nat)
    requires Entries(es) && Separable(names) && name in names && k < |es| && Matches(name, es[k])
    requires (ufs && "xbl" <= name) || !TwoMatches(es, name)
    ensures SwapChain(es, names, ufs)[k] == es[k]
  {
    if Traded(es, names, ufs, k) {
      var n, i, j :| n in names && !(ufs && "xbl" <= n) && FirstTwo(es, n, i, j) && (k == i || k == j);
      MatchesOne(names, name, n, es[k]);
      assert false;
    }
    OthersUntouched(es, names, ufs, k);
  }

  /** The first two entries of the name are where they were, with their first 128 bytes exchanged. */
  ghost predicate NameSwapped(es: seq<Entry>, fs: seq<Entry>, name: string)
    requires Entries(es) && Entries(fs) && ValidName(name) && |fs| == |es|
  {
    forall i: nat, j: nat {:trigger FirstTwo(es, name, i, j)} :: FirstTwo(es, name, i, j) ==>
      && FirstTwo(fs, name, i, j)
      && fs[i] == es[j][..128] + es[i][128..] && fs[j] == es[i][..128] + es[j][128..]
  }

  /** The entries of the name are as they were. */
  ghost predicate NameKept(es: seq<Entry>, fs: seq<Entry>, name: string)
    requires Entries(es) && ValidName(name) && |fs| == |es|
  {
    forall k :: 0 <= k < |es| && Matches(name, es[k]) ==> fs[k] == es[k]
  }

  lemma SameFirstTwo(es: seq<Entry>, fs: seq<Entry>, names: seq<string>, name: string, i: nat, j: nat)
    requires Entries(es) && Entries(fs) && (forall n :: n in names ==> ValidName(n)) && name in names
    requires SameMatches(es, fs, names) && FirstTwo(es, name, i, j)
    ensures FirstTwo(fs, name, i, j)
  {
    forall k | 0 <= k < |es| ensures Matches(name, es[k]) == Matches(name, fs[k]) {
    }
  }

  /** What the loop over the swap list does to each list name. */
  lemma NameAfterSwap(es: seq<Entry>, names: seq<string>, ufs: bool, name: string)
    requires Entries(es) && Separable(names) && name in names
    ensures if !(ufs && "xbl" <= name) && TwoMatches(es, name) then NameSwapped(es, SwapChain(es, names, ufs), name)
            else NameKept(es, SwapChain(es, names, ufs), name)
  {
    var fs := SwapChain(es, names, ufs);
    if !(ufs && "xbl" <= name) && TwoMatches(es, name) {
      forall i: nat, j: nat | FirstTwo(es, name, i, j)
        ensures FirstTwo(fs, name, i, j)
        ensures fs[i] == es[j][..128] + es[i][128..] && fs[j] == es[i][..128] + es[j][128..]
      {
        FirstTwoExchanged(es, names, ufs, name, i, j);
        ChainKeepsMatches(es, names, ufs);
        SameFirstTwo(es, fs, names, name, i, j);
      }
    } else {
      forall k | 0 <= k < |es| && Matches(name, es[k]) ensures fs[k] == es[k] {
        NotExchanged(es, names, ufs, name, k);
      }
    }
  }

  /** Entries of 128 bytes are permuted whole. */
  lemma WholeEntriesPermuted(es: seq<Entry>, names: seq<string>, ufs: bool)
    requires (forall k :: 0 <= k < |es| ==> |es[k]| == 128) && forall n :: n in names ==> ValidName(n)
    ensures multiset(SwapChain(es, names, ufs)) == multiset(es)
  {
    SwapIsPermutation(es, names, ufs);
    var fs := SwapChain(es, names, ufs);
    SwapKeepsSizes(es, names, ufs);
    assert forall k :: 0 <= k < |es| ==> Head(fs[k]) == fs[k] && Head(es[k]) == es[k];
    assert Heads(fs) == fs && Heads(es) == es;
  }

  lemma {:induction false} SwapKeepsSizes(es: seq<Entry>, names: seq<string>, ufs: bool)
    requires Entries(es) && forall n :: n in names ==> ValidName(n)
    ensures forall k :: 0 <= k < |es| ==> |SwapChain(es, names, ufs)[k]| == |es[k]|
    decreases |names|
  {
    if names != [] {
      SwapKeepsSizes(SwapName(es, names[0], ufs), names[1..], ufs);
    }
  }
}
