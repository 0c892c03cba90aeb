/** What a search for an output amounts to: the calls of the base class that it makes, with their
    answers, and what these and the open outputs ask for.  AudioOutputs.dfy carries it out. */
module AudioCourse {
  import opened AudioFlags

  type Handle = nat

  const NONE: Handle := 0

  datatype Profile = Profile(id: nat, flags: Flags)

  datatype ProfileOption = NoProfile | Found(profile: Profile)

  /** SwAudioOutputDescriptor */
  class Descriptor {
    const ioHandle: Handle
    const duplicated: bool
    const profile: Profile
    const flags: Flags
    const devices: set<AudioDevice>
    const sampleRate: nat
    const format: Format
    const channelMask: bv32
    var directOpenCount: int
    var directClientSession: nat

    constructor (ioHandle: Handle, duplicated: bool, profile: Profile, flags: Flags, devices: set<AudioDevice>,
                 sampleRate: nat, format: Format, channelMask: bv32)
      ensures this.ioHandle == ioHandle && this.duplicated == duplicated
      ensures this.profile == profile && this.flags == flags && this.devices == devices
      ensures this.sampleRate == sampleRate && this.format == format && this.channelMask == channelMask
    {
      this.ioHandle, this.duplicated, this.profile, this.flags := ioHandle, duplicated, profile, flags;
      this.devices, this.sampleRate, this.format, this.channelMask := devices, sampleRate, format, channelMask;
      directOpenCount, directClientSession := 0, 0;
    }
  }

  // ---------- Calls of the base class ----------

  /** What came of opening an output: nothing, or one with these parameters. */
  datatype Answer = NotOpened | Granted(sampleRate: nat, format: Format, channelMask: bv32)

  datatype Call =
    | Lookup(flags: Flags, found: ProfileOption)
    | Capacity(profile: Profile, free: bool)
    | Open(profile: Profile, flags: Flags, answer: Answer)
    | Discard(profile: Profile)
    | Select(flags: Flags)

  ghost predicate Proper(call: Call, stream: Stream) {
    match call
    case Open(_, f, _) => ProperOpen(f, stream)
    case Select(f) => f != {} && f !! {Direct, HwAvSync, MmapNoirq} && (DeepBuffer in f ==> stream == Music)
    case _ => true
  }

  ghost predicate ProperOpen(f: Flags, stream: Stream) {
    (CompressOffload in f ==> stream == Music && Direct in f) && (DeepBuffer in f ==> stream == Music)
  }

  /** An output was opened, with the parameters that were asked for. */
  ghost predicate Suits(a: Answer, q: Request, c: Conditions) {
    && a.Granted?
    && (q.sampleRate == 0 || a.sampleRate == q.sampleRate)
    && (q.format == DefaultFormat || c.formatsMatch(q.format, a.format))
    && (q.channelMask == 0 || a.channelMask == q.channelMask)
  }

  // ---------- The course of a search among the direct outputs ----------

  datatype Attempt = Done(output: Handle) | FallBack

  /** How it ends: not begun; no profile; one that was not asked for; an open output of the same client;
      another client in the way; no room; an open that failed or did not suit; a new output. */
  datatype Course =
    | NotSought
    | Missing
    | Rejected(profile: Profile)
    | Reused(profile: Profile, handle: Handle)
    | Refused(profile: Profile)
    | Full(profile: Profile)
    | Failed(profile: Profile, answer: Answer)
    | Opened(profile: Profile, answer: Answer, handle: Handle)

  /** The calls that it consists of. */
  ghost function CallsOf(course: Course, f: Flags): seq<Call> {
    match course
    case NotSought => []
    case Missing => [Lookup(f, NoProfile)]
    case Full(p) => [Lookup(f, Found(p)), Capacity(p, false)]
    case Failed(p, a) =>
      [Lookup(f, Found(p)), Capacity(p, true), Open(p, f, a)] + (if a == NotOpened then [] else [Discard(p)])
    case Opened(p, a, _) => [Lookup(f, Found(p)), Capacity(p, true), Open(p, f, a)]
    case _ => [Lookup(f, Found(course.profile))]
  }

  /** What it comes to: PCM within the sample rate can still be mixed when an open has failed. */
  ghost function Outcome(course: Course, q: Request, c: Conditions): Attempt {
    match course
    case Reused(_, h) => Done(h)
    case Opened(_, _, h) => Done(h)
    case Failed(_, _) => if LinearPcm(q.format) && q.sampleRate <= c.sampleRateMax then FallBack else Done(NONE)
    case _ => FallBack
  }

  /** The calls for a mixed output, if the search among the direct ones has come to nothing: none if
      time stamps are embedded or the format is not PCM. */
  ghost function MixCalls(course: Course, f: Flags, q: Request, c: Conditions): seq<Call> {
    if Outcome(course, q, c).FallBack? && LinearPcm(q.format) && HwAvSync !in f && MmapNoirq !in f
    then [Select(MixedFor(f, q, c))] else []
  }

  // ---------- Which course is taken ----------

  /** A direct output is looked for if the flags ask for one or mixing is ruled out, unless an effect
      or mono forbids what they ask for. */
  ghost predicate Seeks(f: Flags, q: Request, c: Conditions) {
    && (Direct in f || !LinearPcm(q.format) || q.sampleRate > c.sampleRateMax || c.channelCount(q.channelMask) > 2)
    && !((Direct in f || CompressOffload in f) && (c.nonOffloadableEffect || c.masterMono))
  }

  predicate OfProfile(d: Descriptor, p: Profile) {
    !d.duplicated && d.profile == p
  }

  /** The output is this client's, of the profile, and plays what is asked for. */
  ghost predicate CanServe(d: Descriptor, p: Profile, q: Request, c: Conditions)
    reads d`directClientSession
  {
    && !d.duplicated && d.profile == p && d.directClientSession == q.session
    && d.sampleRate == q.sampleRate && c.formatsMatch(q.format, d.format) && d.channelMask == q.channelMask
  }

  ghost predicate Reusable(open: seq<Descriptor>, p: Profile, q: Request, c: Conditions)
    reads open`directClientSession
  {
    exists d :: d in open && CanServe(d, p, q, c)
  }

  /** open[i] is the last output of the profile. */
  ghost predicate LastOf(open: seq<Descriptor>, p: Profile, i: nat) {
    i < |open| && OfProfile(open[i], p) && forall j :: i < j < |open| ==> !OfProfile(open[j], p)
  }

  /** The last output of the profile is another client's. */
  ghost predicate OthersLast(open: seq<Descriptor>, p: Profile, q: Request)
    reads open`directClientSession
  {
    exists i: nat :: LastOf(open, p, i) && open[i].directClientSession != q.session
  }

  /** Direct PCM, or offloading, is asked for and in use. */
  ghost predicate KindOpen(f: Flags, open: seq<Descriptor>) {
    || (f == {Direct} && exists d :: d in open && d.flags == {Direct})
    || (CompressOffload in f && exists d :: d in open && CompressOffload in d.flags)
  }

  /** Open outputs of the profile are considered: several offloaded streams cannot coexist. */
  predicate Exclusive(f: Flags, c: Conditions) {
    !c.multipleOffload && Direct in f
  }

  /** The course is the one that the flags, the open outputs and the answers ask for. */
  ghost predicate Fits(course: Course, f: Flags, q: Request, c: Conditions, open: seq<Descriptor>)
    reads open`directClientSession
  {
    match course
    case NotSought => !Seeks(f, q, c)
    case Missing => Seeks(f, q, c)
    case Rejected(p) => Seeks(f, q, c) && Direct !in f && Direct in p.flags
    case Reused(p, h) =>
      Seeks(f, q, c) && Exclusive(f, c) && exists d :: d in open && d.ioHandle == h && CanServe(d, p, q, c)
    case Refused(p) =>
      Seeks(f, q, c) && Exclusive(f, c) && !Reusable(open, p, q, c) && KindOpen(f, open) && OthersLast(open, p, q)
    case _ => Seeks(f, q, c) && Clears(course.profile, f, q, c, open) && Tried(course, q, c)
  }

  lemma ReusedFits(p: Profile, d: Descriptor, f: Flags, q: Request, c: Conditions, open: seq<Descriptor>)
    requires Seeks(f, q, c) && Exclusive(f, c) && d in open && CanServe(d, p, q, c)
    ensures Fits(Reused(p, d.ioHandle), f, q, c, open)
  {
  }

  lemma RefusedFits(p: Profile, f: Flags, q: Request, c: Conditions, open: seq<Descriptor>)
    requires Seeks(f, q, c) && Exclusive(f, c)
    requires !Reusable(open, p, q, c) && KindOpen(f, open) && OthersLast(open, p, q)
    ensures Fits(Refused(p), f, q, c, open)
  {
  }

  lemma TriedFits(course: Course, f: Flags, q: Request, c: Conditions, open: seq<Descriptor>)
    requires Tried(course, q, c) && Seeks(f, q, c) && Clears(course.profile, f, q, c, open)
    ensures Fits(course, f, q, c, open)
  {
  }

  /** An output is opened, as far as there is room, and kept exactly if it suits. */
  ghost predicate Tried(course: Course, q: Request, c: Conditions) {
    && (course.Full? || course.Failed? || course.Opened?)
    && (course.Failed? ==> !Suits(course.answer, q, c))
    && (course.Opened? ==> Suits(course.answer, q, c) && course.handle != NONE)
  }

  /** The profile may be used, and nothing that is open is reused or in the way. */
  ghost predicate Clears(p: Profile, f: Flags, q: Request, c: Conditions, open: seq<Descriptor>)
    reads open`directClientSession
  {
    && (Direct in f || Direct !in p.flags)
    && (Exclusive(f, c) ==> !Reusable(open, p, q, c) && !(KindOpen(f, open) && OthersLast(open, p, q)))
  }

  /** To make room, the course closes d: the last open output of the profile. */
  ghost predicate Displaces(course: Course, f: Flags, c: Conditions, open: seq<Descriptor>, d: Descriptor) {
    && Exclusive(f, c) && (course.Full? || course.Failed? || course.Opened?)
    && IsLast(open, course.profile, d)
  }

  ghost predicate IsLast(open: seq<Descriptor>, p: Profile, d: Descriptor) {
    exists i: nat :: LastOf(open, p, i) && open[i] == d
  }

  /** How often each output is open. */
  ghost function Counts(open: seq<Descriptor>): (counts: seq<int>)
    reads open`directOpenCount
    ensures |counts| == |open| && forall i :: 0 <= i < |open| ==> counts[i] == open[i].directOpenCount
  {
    if open == [] then [] else [open[0].directOpenCount] + Counts(open[1..])
  }

  /** A reused output is counted once more, and no other. */
  ghost function Raised(counts: seq<int>, course: Course, open: seq<Descriptor>): (raised: seq<int>)
    requires |counts| == |open|
    ensures |raised| == |open|
  {
    seq(|open|, i requires 0 <= i < |open| =>
      if course.Reused? && open[i].ioHandle == course.handle then counts[i] + 1 else counts[i])
  }

  lemma NoneRaised(counts: seq<int>, course: Course, open: seq<Descriptor>)
    requires |counts| == |open| && !course.Reused?
    ensures Raised(counts, course, open) == counts
  {
  }

  // ---------- Voice over PCM ----------

  /** Voice for the VoIP path: mono linear PCM at a rate that it has. */
  ghost predicate VoipPath(q: Request) {
    && q.stream == VoiceCall && LinearPcm(q.format) && q.configMask == 1
    && (q.sampleRate == 8000 || q.sampleRate == 16000 || q.sampleRate == 32000 || q.sampleRate == 48000)
  }

  /** Where the first VoIP output is, or the number of outputs. */
  ghost function FirstVoip(open: seq<Descriptor>): (k: nat)
    ensures k <= |open| && forall j :: 0 <= j < k ==> open[j].flags != {VoipRx, Direct}
    ensures k < |open| ==> open[k].flags == {VoipRx, Direct}
  {
    if open == [] || open[0].flags == {VoipRx, Direct} then 0 else 1 + FirstVoip(open[1..])
  }

  /** A VoIP output that the same client has on other devices. */
  ghost predicate Stale(d: Descriptor, q: Request)
    reads d`directClientSession
  {
    d.directClientSession == q.session && d.devices != q.devices
  }

  /** The flags after the VoIP decision: voice takes the VoIP path unless the first VoIP output is in
      use. */
  ghost function VoipFlags(q: Request, c: Conditions, open: seq<Descriptor>): Flags
    reads open`directClientSession
  {
    var k := FirstVoip(open);
    if c.compressVoip then CompressVoip(q, c)
    else if VoipPath(q) && !(k < |open| && !Stale(open[k], q)) then {VoipRx, Direct}
    else q.flags
  }

  /** The output that the VoIP decision closes, if any: the first VoIP output, if it is stale. */
  ghost function VoipCloses(q: Request, c: Conditions, open: seq<Descriptor>): Descriptor?
    reads open`directClientSession
  {
    var k := FirstVoip(open);
    if !c.compressVoip && VoipPath(q) && k < |open| && Stale(open[k], q) then open[k] else null
  }

  /** All outputs but d are left, and but for duplicates that may go with it. */
  ghost predicate Without(d: Descriptor?, open: seq<Descriptor>, now: seq<Descriptor>) {
    && (forall e :: e in open && !e.duplicated ==> (e in now <==> e != d))
    && (forall e :: e in now ==> e in open)
    && (d == null ==> now == open)
  }

  // ---------- What a course leaves of the outputs ----------

  /** All but the one that it closes and the duplicates that go with it, and besides them at most the
      new one. */
  ghost predicate Kept(course: Course, f: Flags, c: Conditions, open: seq<Descriptor>, now: seq<Descriptor>) {
    && (forall d :: d in open && !d.duplicated ==> (d in now <==> !Displaces(course, f, c, open, d)))
    && (forall d :: d in now ==> d in open || (course.Opened? && d.ioHandle == course.handle))
    && ((forall d :: d in open ==> !Displaces(course, f, c, open, d)) ==>
          if course.Opened? then forall d :: d in open ==> d in now else now == open)
  }

  /** The last output of the profile is gone, and duplicates may be. */
  ghost predicate WithoutLast(p: Profile, open: seq<Descriptor>, now: seq<Descriptor>) {
    && (forall d :: d in open && !d.duplicated ==> (d in now <==> !IsLast(open, p, d)))
    && (forall d :: d in now ==> d in open)
    && ((forall d :: d in open ==> !IsLast(open, p, d)) ==> now == open)
  }

  lemma OnlyLast(open: seq<Descriptor>, p: Profile, k: nat)
    requires LastOf(open, p, k)
    ensures forall i: nat :: LastOf(open, p, i) ==> i == k
    ensures forall d :: IsLast(open, p, d) <==> d == open[k]
  {
  }

  /** A new output at most has come, with a handle of its own. */
  ghost predicate Grown(course: Course, open: seq<Descriptor>, now: seq<Descriptor>) {
    if course.Opened? then
      && (forall d :: d in open ==> d in now && d.ioHandle != course.handle)
      && (forall d :: d in now ==> d in open || d.ioHandle == course.handle)
    else now == open
  }

  lemma GrownIsKept(
    course: Course, f: Flags, q: Request, c: Conditions, open: seq<Descriptor>, mid: seq<Descriptor>,
    now: seq<Descriptor>)
    requires Tried(course, q, c) && Exclusive(f, c)
    requires WithoutLast(course.profile, open, mid) && Grown(course, mid, now)
    requires course.Opened? ==> forall d :: d in open && d in now ==> d in mid
    ensures Kept(course, f, c, open, now)
  {
    forall d ensures Displaces(course, f, c, open, d) <==> IsLast(open, course.profile, d) {
    }
  }

  lemma UntouchedIsKept(course: Course, f: Flags, c: Conditions, open: seq<Descriptor>)
    requires !course.Full? && !course.Failed? && !course.Opened?
    ensures Kept(course, f, c, open, open)
  {
  }

  lemma PlainIsKept(course: Course, f: Flags, c: Conditions, open: seq<Descriptor>, now: seq<Descriptor>)
    requires !Exclusive(f, c) && Grown(course, open, now)
    ensures Kept(course, f, c, open, now)
  {
  }

  // ---------- What follows ----------

  /** Every call of a course with proper flags is proper. */
  lemma CallsAreProper(course: Course, f: Flags, q: Request, c: Conditions, k: nat)
    requires ProperOpen(f, q.stream) && k < |CallsOf(course, f) + MixCalls(course, f, q, c)|
    requires f !! {HwAvSync, MmapNoirq} ==> Proper(Select(MixedFor(f, q, c)), q.stream)
    ensures Proper((CallsOf(course, f) + MixCalls(course, f, q, c))[k], q.stream)
  {
    assert f !! {HwAvSync, MmapNoirq} <==> HwAvSync !in f && MmapNoirq !in f;
  }

  /** Another client's output is closed only for a direct request, only if several offloaded streams
      cannot coexist, and never while it is of the kind asked for. */
  lemma DisplacesOthersIf(
    course: Course, f: Flags, q: Request, c: Conditions, open: seq<Descriptor>, d: Descriptor)
    requires Fits(course, f, q, c, open) && Displaces(course, f, c, open, d) && d.directClientSession != q.session
    ensures !c.multipleOffload && Direct in f
    ensures !(f == {Direct} && d.flags == {Direct}) && !(CompressOffload in f && CompressOffload in d.flags)
  {
    var i: nat :| LastOf(open, course.profile, i) && open[i] == d;
    assert OthersLast(open, course.profile, q);
  }

  /** No course without a lookup opens anything; a course with one has begun. */
  lemma SoughtIff(course: Course, f: Flags, q: Request, c: Conditions, open: seq<Descriptor>)
    requires Fits(course, f, q, c, open)
    ensures Seeks(f, q, c) <==> CallsOf(course, f) != []
    ensures Seeks(f, q, c) <==> CallsOf(course, f) != [] && CallsOf(course, f)[0].Lookup?
    ensures !Seeks(f, q, c) ==> course == NotSought && forall d :: !Displaces(course, f, c, open, d)
  {
  }

  /** Offloading that is resolved to is looked for among the direct outputs, unless an effect or mono
      forbids it. */
  lemma OffloadIsSought(f: Flags, q: Request, c: Conditions, pcmOpen: bool)
    requires OffloadAllowed(f, q.stream) && CompressOffload in Resolved(f, q, c, pcmOpen)
    ensures Seeks(Resolved(f, q, c, pcmOpen), q, c) <==> !c.nonOffloadableEffect && !c.masterMono
  {
    ResolutionIsSafe(f, q, c, pcmOpen);
  }

  /** A format that cannot be mixed is looked for among the direct outputs or not at all, and a search
      that comes to nothing then ends without an output. */
  lemma EncodedIsNeverMixed(course: Course, f: Flags, q: Request, c: Conditions, open: seq<Descriptor>)
    requires Fits(course, f, q, c, open) && !LinearPcm(q.format)
    ensures MixCalls(course, f, q, c) == []
    ensures course == NotSought <==>
              (Direct in f || CompressOffload in f) && (c.nonOffloadableEffect || c.masterMono)
  {
  }

  /** A mixed output is asked for exactly if no direct one has been reused or opened, the format is PCM
      without embedded time stamps or MMAP, and, after an open that failed, the rate can be mixed. */
  lemma MixedIff(course: Course, f: Flags, q: Request, c: Conditions)
    ensures MixCalls(course, f, q, c) == [Select(MixedFor(f, q, c))] || MixCalls(course, f, q, c) == []
    ensures MixCalls(course, f, q, c) != [] <==>
              && !course.Reused? && !course.Opened? && LinearPcm(q.format) && HwAvSync !in f && MmapNoirq !in f
              && (course.Failed? ==> q.sampleRate <= c.sampleRateMax)
  {
  }

  /** Without a VoIP output, mono PCM voice at one of the four rates takes the VoIP path; any other
      request keeps its flags; nothing is closed. */
  lemma VoipWithoutOutputs(q: Request, c: Conditions, open: seq<Descriptor>)
    requires !c.compressVoip && forall d :: d in open ==> d.flags != {VoipRx, Direct}
    ensures VoipCloses(q, c, open) == null
    ensures VoipFlags(q, c, open) ==
              if && q.stream == VoiceCall && LinearPcm(q.format) && q.configMask == 1
                 && q.sampleRate in {8000, 16000, 32000, 48000}
              then {VoipRx, Direct} else q.flags
  {
  }
}
