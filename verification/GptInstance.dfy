/** The GPT format as an instance of the update protocol: the laws hold for every checksum
    function, and the protocol's results become results about partition tables. */
module GptInstance {
  import opened Bytes
  import opened GptHeader
  import opened PartitionNames
  import opened BootChain
  import opened EntryArray
  import opened UpdateProtocol
  import Crc32

  type SwapList = ns: seq<string> | Separable(ns) witness []

  /** A header that gpt2_set_boot_chain can work with: entries of at least 128 bytes, and an
      array whose size fits the 32 bits it is calculated in. */
  ghost predicate SoundHeader(h: seq<byte>) {
    Header(h) && EntrySize(h) >= PTN_ENTRY_SIZE && ArrayBytes(h) == EntryPos(EntryCount(h), EntrySize(h))
  }

  /** State and fields are there as soon as the header checksum can be calculated; a sound header
      is more. */
  ghost function GptInfo(crc: Checksum, h: seq<byte>): Info {
    if Header(h) then
      Info(true, SoundHeader(h), StateOf(crc, h),
           ArraySum(h), EntrySize(h), ArrayBytes(h), ArrayLba(h), |h|, HeaderSize(h))
    else
      Info(false, false, BadCrc, 0, 0, 0, 0, 0, 0)
  }

  /** The swapped array, if there is anything to swap; bytes after the last whole entry stay. */
  ghost function GptSwap(names: SwapList, ufs: bool, e: seq<byte>, size: nat): SwapResult {
    if size < PTN_ENTRY_SIZE || !Swappable(EntriesOf(e, size), names, ufs) then Nothing
    else
      EntriesPrefix(e, size);
      SwappedTo(Flatten(SwapChain(EntriesOf(e, size), names, ufs)) + e[|Flatten(EntriesOf(e, size))|..])
  }

  ghost function GptSetup(crc: Checksum, names: SwapList, ufs: bool): Setup {
    Setup(
      h => GptInfo(crc, h),
      (h: seq<byte>) => if Header(h) then Blank(h) else h,
      (h, st) => if Header(h) && st != BadCrc then WithState(crc, h, st) else h,
      (h, c) => if Header(h) then WithArraySum(crc, h, c) else h,
      crc,
      (e: seq<byte>, size: nat) => GptSwap(names, ufs, e, size))
  }

  // ---------- The laws ----------

  lemma {:induction false} EntriesPrefix(e: seq<byte>, size: nat)
    requires size >= PTN_ENTRY_SIZE
    ensures Flatten(EntriesOf(e, size)) <= e
    decreases |e|
  {
    if |e| >= size {
      EntriesPrefix(e[size..], size);
    }
  }

  lemma SwapKeepsLength(names: SwapList, ufs: bool, e: seq<byte>, size: nat)
    ensures GptSwap(names, ufs, e, size).SwappedTo? ==> |GptSwap(names, ufs, e, size).entries| == |e|
  {
    if size >= PTN_ENTRY_SIZE {
      var es := EntriesOf(e, size);
      EntriesPrefix(e, size);
      SwapKeepsSizes(es, names, ufs);
      EntriesFlatten(es, size);
      EntriesFlatten(SwapChain(es, names, ufs), size);
    }
  }

  /** On an array of whole entries the swap is the boot-chain swap of its entries. */
  lemma SwapOfWholeEntries(names: SwapList, ufs: bool, e: seq<byte>, size: nat, n: nat)
    requires size >= PTN_ENTRY_SIZE && |e| == EntryPos(n, size)
    ensures var es := EntriesOf(e, size);
      && |Flatten(SwapChain(es, names, ufs))| == |e|
      && EntriesOf(Flatten(SwapChain(es, names, ufs)), size) == SwapChain(es, names, ufs)
      && GptSwap(names, ufs, e, size)
      == if Swappable(es, names, ufs) then SwappedTo(Flatten(SwapChain(es, names, ufs))) else Nothing
  {
    var es := EntriesOf(e, size);
    FlattenEntries(e, size, n);
    SwapKeepsSizes(es, names, ufs);
    EntriesFlatten(es, size);
    EntriesFlatten(SwapChain(es, names, ufs), size);
    assert e[|Flatten(es)|..] == [];
  }

  lemma MarkedInfo(crc: Checksum, h: seq<byte>, state: State)
    requires Header(h) && state != BadCrc
    ensures GptInfo(crc, WithState(crc, h, state)) == GptInfo(crc, h).(state := state)
    ensures Blank(WithState(crc, h, state)) == Blank(h)
  {
    SetThenGet(crc, h, state);
    SetKeepsBlank(crc, h, state);
  }

  predicate Signed(h: seq<byte>) {
    |h| >= |SIGNATURE| && h[..|SIGNATURE|] == SIGNATURE
  }

  lemma StoredInfo(crc: Checksum, h: seq<byte>, sum: word)
    requires Header(h)
    ensures GptInfo(crc, WithArraySum(crc, h, sum))
              == GptInfo(crc, h).(sum := sum, state := if Signed(h) then Ok else BadSignature)
    ensures Blank(WithArraySum(crc, h, sum)) == Blank(h)
  {
    ArraySumStored(crc, h, sum);
    StoreKeepsBlank(crc, h, sum);
  }

  lemma GptLengthLaw(crc: Checksum, names: SwapList, ufs: bool)
    ensures LengthLaw(GptSetup(crc, names, ufs))
  {
    var s := GptSetup(crc, names, ufs);
    forall h | s.info(h).readable ensures s.info(h).len == |h| {
      assert s.info(h) == GptInfo(crc, h);
    }
  }

  lemma GptMarkLaw(crc: Checksum, names: SwapList, ufs: bool)
    ensures MarkLaw(GptSetup(crc, names, ufs))
  {
    var s := GptSetup(crc, names, ufs);
    forall h, st | s.info(h).readable && st != BadCrc
      ensures s.info(s.mark(h, st)) == s.info(h).(state := st) && s.rest(s.mark(h, st)) == s.rest(h)
    {
      MarkedInfo(crc, h, st);
    }
  }

  lemma GptStoreLaw(crc: Checksum, names: SwapList, ufs: bool)
    ensures StoreLaw(GptSetup(crc, names, ufs))
  {
    var s := GptSetup(crc, names, ufs);
    forall h, c | s.info(h).readable && s.info(h).state != BadCrc
      ensures s.info(s.store(h, c)) == s.info(h).(sum := c) && s.rest(s.store(h, c)) == s.rest(h)
    {
      StoredInfo(crc, h, c);
    }
  }

  lemma GptGoodHeaderLaw(crc: Checksum, names: SwapList, ufs: bool)
    ensures GoodHeaderLaw(GptSetup(crc, names, ufs))
  {
    var s := GptSetup(crc, names, ufs);
    forall a, b | s.info(a).readable && s.info(a).state == Ok && s.info(a) == s.info(b) && s.rest(a) == s.rest(b)
      ensures a == b
    {
      GoodHeaderDetermined(crc, a, b);
    }
  }

  lemma GptSwapLaw(crc: Checksum, names: SwapList, ufs: bool)
    ensures SwapLaw(GptSetup(crc, names, ufs))
  {
    var s := GptSetup(crc, names, ufs);
    forall e, size: nat ensures s.swap(e, size).SwappedTo? ==> |s.swap(e, size).entries| == |e| {
      SwapKeepsLength(names, ufs, e, size);
    }
  }

  /** The GPT header format obeys the laws of the protocol, whatever the checksum function. */
  lemma GptIsLawful(crc: Checksum, names: SwapList, ufs: bool)
    ensures Lawful(GptSetup(crc, names, ufs))
  {
    GptLengthLaw(crc, names, ufs);
    GptMarkLaw(crc, names, ufs);
    GptStoreLaw(crc, names, ufs);
    GptGoodHeaderLaw(crc, names, ufs);
    GptSwapLaw(crc, names, ufs);
  }

  // ---------- The instance in use ----------

  /** The checksum in use, the list of names to swap, whether the device is UFS, and whether it has
      both an XBL partition and its backup. */
  datatype Env = Env(crc: Checksum, names: SwapList, ufs: bool, xbl: bool)

  ghost function SetupOf(env: Env): Setup {
    GptSetup(env.crc, env.names, env.ufs)
  }

  /** The setup s is the one of env: its functions are those of the GPT format. */
  ghost predicate Realizes(s: Setup, env: Env) {
    && s.crc == env.crc
    && (forall h {:trigger GptInfo(env.crc, h)} :: s.info(h) == GptInfo(env.crc, h))
    && (forall h, st {:trigger WithState(env.crc, h, st)} ::
          Header(h) && st != BadCrc ==> s.mark(h, st) == WithState(env.crc, h, st))
    && (forall h, c {:trigger WithArraySum(env.crc, h, c)} :: Header(h) ==>
        s.store(h, c) == WithArraySum(env.crc, h, c))
    && (forall e, n: nat {:trigger GptSwap(env.names, env.ufs, e, n)} ::
          s.swap(e, n) == GptSwap(env.names, env.ufs, e, n))
  }

  lemma SetupRealizes(env: Env)
    ensures Realizes(SetupOf(env), env) && Lawful(SetupOf(env))
  {
    GptIsLawful(env.crc, env.names, env.ufs);
  }

  lemma ReadInfo(s: Setup, env: Env, h: seq<byte>)
    requires Realizes(s, env) && s.info(h).readable
    ensures Header(h) && s.info(h).state == StateOf(env.crc, h)
    ensures s.info(h).sum == ArraySum(h) && s.info(h).size == EntrySize(h) && s.info(h).covered == HeaderSize(h)
    ensures s.info(h).bytes == ArrayBytes(h) && s.info(h).lba == ArrayLba(h)
    ensures s.info(h).valid <==> SoundHeader(h)
  {
    assert GptInfo(env.crc, h) == s.info(h);
  }
}
