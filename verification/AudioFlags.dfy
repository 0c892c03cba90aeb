/** The output flags of a playback request: how AudioPolicyManager.cpp rewrites them, step by step,
    before it looks for an output. */
module AudioFlags {

  datatype Flag = Direct | Primary | Fast | DeepBuffer | CompressOffload | Raw | HwAvSync | MmapNoirq
                | Tts | VoipRx | IncallMusic | DirectPcm | OtherFlag(bit: nat)

  type Flags = set<Flag>

  datatype Stream = VoiceCall | Music | EnforcedAudible | TtsStream | OtherStream(id: nat) | InvalidStream

  datatype Format = DefaultFormat | Pcm16 | OtherPcm(id: nat) | Encoded(id: nat)

  predicate LinearPcm(f: Format) {
    f.Pcm16? || f.OtherPcm?
  }

  datatype Usage = Media | Game | OtherUsage

  datatype Mode = InCall | InCommunication | OtherMode

  datatype DeviceType = TelephonyTx | OtherType(id: nat)

  datatype AudioDevice = AudioDevice(kind: DeviceType, address: string)

  /** What a client asks for; the channel mask has been freed of haptic channels if those are to be
      muted, configMask has not. */
  datatype Request = Request(
    devices: set<AudioDevice>, session: nat, stream: Stream, flags: Flags,
    sampleRate: nat, format: Format, channelMask: bv32, configMask: bv32, usage: Usage)

  /** What the code asks of the configuration, the engine and the client interface. */
  datatype Conditions = Conditions(
    compressVoip: bool, voicePathForPcmVoip: bool, voipOutCount: nat, voipSampleRate: nat,
    vrMode: bool,
    voiceConc: bool, playConcDisabled: bool, voipConcDisabled: bool, voiceCallState: bool,
    phoneState: Mode, prevPhoneState: Mode, inCall: bool, fallBack: Flags,
    recPlayConc: bool, recPlayConcDisabled: bool, inputActive: bool,
    afeProxy: bool, proxyAvailable: bool,
    offloadDisabled: bool, deepbufferMedia: bool, multipleOffload: bool,
    nonOffloadableEffect: bool, masterMono: bool,
    sampleRateMax: nat, channelCount: bv32 -> nat, formatsMatch: (Format, Format) -> bool)

  // ---------- The steps, as functions of the flags ----------

  predicate VoipRate(rate: nat) {
    rate == 8000 || rate == 16000 || rate == 32000 || rate == 48000
  }

  /** A voice stream while compressed VoIP is enabled: a free VoIP path, or the primary output. */
  function CompressVoip(q: Request, c: Conditions): Flags {
    if q.stream != VoiceCall || !LinearPcm(q.format) then q.flags
    else if && q.channelMask == 1 && VoipRate(q.sampleRate) && c.voipOutCount == 0
            && c.voipSampleRate in {0, q.sampleRate} && c.voicePathForPcmVoip && q.format == Pcm16 then {VoipRx, Direct}
    else {Fast, Primary}
  }

  predicate VoipRequest(q: Request) {
    q.stream == VoiceCall && LinearPcm(q.format) && VoipRate(q.sampleRate)
  }

  /** The flags after the VoIP decision. */
  ghost predicate Taken(f: Flags, q: Request, c: Conditions) {
    if c.compressVoip then f == CompressVoip(q, c)
    else f == q.flags || (f == {VoipRx, Direct} && VoipRequest(q))
  }

  function AfterVr(f: Flags, c: Conditions): Flags {
    if c.vrMode then f - {Fast, Raw} else f
  }

  /** A voice call is active, or goes on behind a VoIP call. */
  predicate CallHeld(c: Conditions) {
    c.voiceCallState && (c.phoneState == InCall || (c.prevPhoneState == InCall && c.phoneState == InCommunication))
  }

  /** VoIP gets no output during a voice call, if so configured. */
  predicate VoiceRefuses(f: Flags, c: Conditions) {
    c.voiceConc && c.voipConcDisabled && CallHeld(c) && VoipRx in f
  }

  function AfterVoice(f: Flags, stream: Stream, c: Conditions): Flags {
    if !c.voiceConc || !c.playConcDisabled || !CallHeld(c) || VoipRx in f then f
    else if f !! {DeepBuffer, CompressOffload, DirectPcm} then f
    else if c.fallBack == {Fast} then {Fast}
    else if c.fallBack != {DeepBuffer} || f !! {CompressOffload, DirectPcm} then f
    else if stream == Music then {DeepBuffer}
    else {Fast}
  }

  function AfterRecord(f: Flags, stream: Stream, c: Conditions): Flags {
    if !c.recPlayConc || !c.recPlayConcDisabled then f
    else if stream == EnforcedAudible then {Fast}
    else if !c.inputActive || Fast in f || (c.phoneState == InCommunication && VoipRx in f) then f
    else {DeepBuffer}
  }

  function AfterProxy(f: Flags, stream: Stream, c: Conditions): Flags {
    if !c.afeProxy || !c.proxyAvailable || stream == Music then f
    else if Direct in f then {Direct} else {Fast}
  }

  /** Offloading and hardware A/V synchronisation imply a direct stream. */
  function Implied(f: Flags): Flags {
    if f !! {CompressOffload, HwAvSync} then f else f + {Direct}
  }

  /** Plain PCM goes direct exactly for music, with offloading enabled. */
  function AfterDirect(f: Flags, q: Request, c: Conditions): Flags {
    if f == {} && q.stream == Music && !c.offloadDisabled && q.usage != OtherUsage then {Direct}
    else if f == {Direct} && (c.offloadDisabled || q.stream != Music) then {}
    else f
  }

  /** The flags as the open outputs are looked at. */
  function Asked(f: Flags, q: Request, c: Conditions): Flags {
    AskedAfterVoice(AfterVoice(AfterVr(f, c), q.stream, c), q, c)
  }

  /** The same, from the recording check on. */
  function AskedAfterVoice(f: Flags, q: Request, c: Conditions): Flags {
    AskedAfterRecord(AfterRecord(f, q.stream, c), q, c)
  }

  /** And from the proxy check on. */
  function AskedAfterRecord(f: Flags, q: Request, c: Conditions): Flags {
    AfterDirect(Implied(AfterProxy(f, q.stream, c)), q, c)
  }

  /** The flags once it is known whether a direct PCM output is open. */
  function AfterInUse(f: Flags, stream: Stream, pcmOpen: bool): Flags {
    if Direct in f && pcmOpen && stream != Music then {} else f
  }

  predicate IncallMusicRequest(q: Request, c: Conditions) {
    && (set d <- q.devices :: d.kind) == {TelephonyTx} && q.stream == Music && LinearPcm(q.format) && c.inCall
  }

  /** The stream has the last word. */
  function AfterStream(f: Flags, q: Request, c: Conditions): Flags {
    if q.stream == TtsStream then {Tts}
    else if IncallMusicRequest(q, c) then {IncallMusic}
    else if q.stream != Music then f - {DeepBuffer}
    else f
  }

  function Resolved(f: Flags, q: Request, c: Conditions, pcmOpen: bool): Flags {
    AfterStream(AfterInUse(Asked(f, q, c), q.stream, pcmOpen), q, c)
  }

  /** The flags that a mixed output is asked for in place of f. */
  ghost function MixedFor(f: Flags, q: Request, c: Conditions): Flags {
    if DeepWanted(f, q, c) then {DeepBuffer}
    else if f == {} || f == {Direct} then {Primary}
    else f - {Direct}
  }

  /** Plain, direct or offloaded music is deep-buffered when it is mixed, if so configured and no call
      is going on. */
  ghost predicate DeepWanted(f: Flags, q: Request, c: Conditions) {
    q.stream == Music && c.deepbufferMedia && !c.inCall && (f == {} || f == {Direct} || CompressOffload in f)
  }

  // ---------- The same, by assignments ----------

  /** Compressed VoIP: voice takes the VoIP path or, failing that, the primary output. */
  method TakeCompressed(q: Request, c: Conditions) returns (flags: Flags)
    ensures flags == CompressVoip(q, c)
  {
    flags := q.flags;
    if q.stream == VoiceCall && LinearPcm(q.format) {
      var usePrimaryOut := true;
      if q.channelMask == 1
         && (q.sampleRate == 8000 || q.sampleRate == 16000 || q.sampleRate == 32000 || q.sampleRate == 48000) {
        if c.voipOutCount == 0 && (c.voipSampleRate == 0 || c.voipSampleRate == q.sampleRate) {
          if c.voicePathForPcmVoip && q.format == Pcm16 {
            flags := {VoipRx, Direct};
            usePrimaryOut := false;
          }
        }
      }
      if usePrimaryOut {
        flags := {Fast, Primary};
      }
    }
  }

  /** The rewriting of `flags` from the VR check to the choice for the stream; `pcmOpen` is asked of
      the outputs that are open. */
  method Rewrite(f: Flags, q: Request, c: Conditions) returns (refused: bool, flags: Flags)
    ensures refused <==> VoiceRefuses(AfterVr(f, c), c)
    ensures flags == if refused then AfterVr(f, c) else Asked(f, q, c)
  {
    flags := f;
    if c.vrMode {
      flags := flags - {Fast, Raw};
    }
    refused, flags := VoiceConcurrency(flags, q, c);
    if refused {
      return;
    }
    flags := RecordConcurrency(flags, q, c);
    if c.afeProxy && c.proxyAvailable && q.stream != Music {
      flags := if Direct in flags then {Direct} else {Fast};
    }
    if CompressOffload in flags {
      flags := flags + {Direct};
    }
    if HwAvSync in flags {
      flags := flags + {Direct};
    }
    if flags == {} && q.stream == Music && !c.offloadDisabled && (q.usage == Media || q.usage == Game) {
      flags := {Direct};
    } else if flags == {Direct} && (c.offloadDisabled || q.stream != Music) {
      flags := {};
    }
  }

  method VoiceConcurrency(f: Flags, q: Request, c: Conditions) returns (refused: bool, flags: Flags)
    ensures refused <==> VoiceRefuses(f, c)
    ensures flags == if refused then f else AfterVoice(f, q.stream, c)
  {
    refused, flags := false, f;
    if c.voiceConc {
      var deepFallBack := CompressOffload in flags || DirectPcm in flags;
      var fastFallBack := DeepBuffer in flags || CompressOffload in flags || DirectPcm in flags;
      if c.playConcDisabled && c.voiceCallState {
        if c.phoneState == InCall || (c.prevPhoneState == InCall && c.phoneState == InCommunication) {
          if VoipRx in flags {
            if c.voipConcDisabled {
              return true, flags;
            }
          } else if fastFallBack && c.fallBack == {Fast} {
            flags := {Fast};
          } else if deepFallBack && c.fallBack == {DeepBuffer} {
            if q.stream == Music {
              flags := {DeepBuffer};
            } else {
              flags := {Fast};
            }
          }
        }
      } else if c.voipConcDisabled && c.voiceCallState {
        if c.phoneState == InCall || (c.prevPhoneState == InCall && c.phoneState == InCommunication) {
          if VoipRx in flags {
            return true, flags;
          }
        }
      }
    }
  }

  method RecordConcurrency(f: Flags, q: Request, c: Conditions) returns (flags: Flags)
    ensures flags == AfterRecord(f, q.stream, c)
  {
    flags := f;
    if c.recPlayConc {
      if c.recPlayConcDisabled && c.inputActive {
        if c.phoneState == InCommunication {
          if VoipRx in flags {
          } else if Fast !in flags {
            flags := {DeepBuffer};
          }
        } else if Fast !in flags {
          flags := {DeepBuffer};
        }
      }
      if c.recPlayConcDisabled && q.stream == EnforcedAudible {
        flags := {Fast};
      }
    }
  }

  // ---------- What the resolution promises ----------

  /** Offloading has been refused to any stream but music. */
  predicate OffloadAllowed(f: Flags, stream: Stream) {
    CompressOffload in f ==> stream == Music
  }

  /** For every request, configuration and phone or record state: offloading is for music, and comes
      with a direct stream, as does hardware A/V synchronisation; deep buffering is for music; the
      TTS stream has its own output; in VR mode RAW is gone. */
  lemma ResolutionIsSafe(f: Flags, q: Request, c: Conditions, pcmOpen: bool)
    requires OffloadAllowed(f, q.stream)
    ensures var r := Resolved(f, q, c, pcmOpen);
      && (CompressOffload in r ==> q.stream == Music && Direct in r)
      && (HwAvSync in r ==> Direct in r)
      && (DeepBuffer in r ==> q.stream == Music)
      && (q.stream == TtsStream ==> r == {Tts})
      && (c.vrMode ==> Raw !in r)
  {
    AskedIsSafe(f, q, c);
  }

  lemma AskedIsSafe(f: Flags, q: Request, c: Conditions)
    requires OffloadAllowed(f, q.stream)
    ensures var a := Asked(f, q, c);
      && (CompressOffload in a ==> q.stream == Music && Direct in a) && (HwAvSync in a ==> Direct in a)
      && (c.vrMode ==> Raw !in a)
  {
    var v := AfterVoice(AfterVr(f, c), q.stream, c);
    assert (CompressOffload in v ==> q.stream == Music) && (c.vrMode ==> Raw !in v);
    var p := AfterProxy(AfterRecord(v, q.stream, c), q.stream, c);
    assert (CompressOffload in p ==> q.stream == Music) && (c.vrMode ==> Raw !in p);
  }

  /** What the mixed output is asked for: something, never a direct stream, deep buffering for music
      only, and no embedded time stamps or MMAP that the request did not have. */
  lemma MixedRequestIsSafe(f: Flags, q: Request, c: Conditions, pcmOpen: bool)
    ensures var r := Resolved(f, q, c, pcmOpen);
      var m := MixedFor(r, q, c);
      && m != {} && Direct !in m && (DeepBuffer in m ==> q.stream == Music)
      && (r !! {HwAvSync, MmapNoirq} ==> m !! {HwAvSync, MmapNoirq})
  {
    var r := Resolved(f, q, c, pcmOpen);
    assert Direct !in r - {Direct};
    if r - {Direct} == {} {
      assert r <= {Direct};
    }
  }

  /** The request and the configuration let a plain direct, deep-buffered request through: VR mode
      leaves no other flag, no FAST fallback takes its place during a held call, recording and the
      audible-enforced stream do not override it, and no proxy device is in the way. */
  predicate Slips(f: Flags, q: Request, c: Conditions) {
    && AfterVr(f, c) == {Direct, DeepBuffer}
    && !(c.voiceConc && c.playConcDisabled && CallHeld(c) && c.fallBack == {Fast})
    && !(c.recPlayConc && c.recPlayConcDisabled && (q.stream == EnforcedAudible || c.inputActive))
    && !(c.afeProxy && c.proxyAvailable)
  }

  lemma AskedPlainIff(f: Flags, q: Request, c: Conditions)
    requires q.stream != Music
    ensures Asked(f, q, c) == {Direct, DeepBuffer} <==> Slips(f, q, c)
  {
    var v := AfterVr(f, c);
    var w := AfterVoice(v, q.stream, c);
    var r := AfterRecord(w, q.stream, c);
    var p := AfterProxy(r, q.stream, c);
    assert DeepBuffer in Asked(f, q, c) ==> Implied(p) == Asked(f, q, c);
    if Implied(p) == {Direct, DeepBuffer} {
      assert Direct in p by {
        assert CompressOffload in p || HwAvSync in p ==> Implied(p) == p + {Direct};
      }
    }
  }

  /** A plain direct request is meant for music with offloading enabled.  It is made for anything
      else exactly when VoIP has not taken over a request that slips through, for a stream other than
      music and TTS, and no direct PCM output is open: plain requests are weeded out before deep
      buffering is taken away. */
  lemma PlainDirectIff(f: Flags, q: Request, c: Conditions, pcmOpen: bool)
    requires Taken(f, q, c)
    ensures Resolved(f, q, c, pcmOpen) == {Direct} && !(q.stream == Music && !c.offloadDisabled)
      <==> f == q.flags && Slips(q.flags, q, c) && q.stream != Music && q.stream != TtsStream && !pcmOpen
  {
    NeverPlain(f, q, c);
    var u := AfterInUse(Asked(f, q, c), q.stream, pcmOpen);
    if DeepBuffer in u {
      assert u == (u - {DeepBuffer}) + {DeepBuffer};
    }
    assert {Direct, DeepBuffer} - {DeepBuffer} == {Direct};
    if q.stream != Music {
      AskedPlainIff(f, q, c);
      if f != q.flags {
        TakenDoesNotSlip(f, q, c);
      }
    }
  }

  /** What VoIP puts in place of the flags does not slip through. */
  lemma TakenDoesNotSlip(f: Flags, q: Request, c: Conditions)
    requires Taken(f, q, c) && f != q.flags
    ensures !Slips(f, q, c)
  {
    assert DeepBuffer !in f;
  }

  /** A request that slips through is not refused on the way. */
  lemma SlippingIsResolved(f: Flags, q: Request, c: Conditions)
    requires Slips(f, q, c) && q.stream != Music
    ensures OffloadAllowed(f, q.stream) && !VoiceRefuses(AfterVr(f, c), c) && Direct in Asked(f, q, c)
  {
    AskedPlainIff(f, q, c);
    assert CompressOffload !in AfterVr(f, c);
  }

  lemma SlippingIsAllowed(q: Request, c: Conditions)
    ensures Slips(q.flags, q, c) ==> OffloadAllowed(q.flags, q.stream)
  {
    if Slips(q.flags, q, c) && q.stream != Music {
      SlippingIsResolved(q.flags, q, c);
    }
  }

  /** Streams whose flags VoIP and TTS leave alone, and that are not music. */
  predicate Ordinary(stream: Stream) {
    stream.EnforcedAudible? || stream.OtherStream?
  }

  /** The flags asked for, none after a refusal, are plain direct ones for the wrong stream only if the
      request slips through; for an ordinary stream exactly if, besides, no direct PCM is open. */
  lemma AskedSlips(taken: Flags, q: Request, c: Conditions, refused: bool, pcm: bool, open: bool, asked: Flags)
    requires Taken(taken, q, c) && (refused <==> VoiceRefuses(AfterVr(taken, c), c))
    requires asked == if refused then {} else Resolved(taken, q, c, pcm)
    requires !refused && Direct in Asked(taken, q, c) ==> (pcm <==> open)
    ensures asked == {Direct} && !(q.stream == Music && !c.offloadDisabled) ==> Slips(q.flags, q, c)
    ensures Ordinary(q.stream) && taken == q.flags ==> (asked == {Direct} <==> Slips(q.flags, q, c) && !open)
  {
    PlainDirectIff(taken, q, c, pcm);
    if Slips(taken, q, c) && q.stream != Music {
      SlippingIsResolved(taken, q, c);
    }
    if Slips(q.flags, q, c) && q.stream != Music {
      SlippingIsResolved(q.flags, q, c);
    }
    if asked == {Direct} && Ordinary(q.stream) {
      PlainNeedsDirect(taken, q, c, pcm);
    }
  }

  lemma PlainNeedsDirect(f: Flags, q: Request, c: Conditions, pcm: bool)
    requires Resolved(f, q, c, pcm) == {Direct}
    ensures Direct in Asked(f, q, c)
  {
    assert Direct in Resolved(f, q, c, pcm);
  }

  lemma NeverPlain(f: Flags, q: Request, c: Conditions)
    ensures Asked(f, q, c) == {Direct} ==> q.stream == Music && !c.offloadDisabled
  {
  }

  /** The notification tone that slips through: a direct, deep-buffered request of a stream that is
      not music. */
  lemma PlainDirectExample(q: Request, c: Conditions)
    requires q.stream == OtherStream(5) && q.flags == {Direct, DeepBuffer}
    requires !c.vrMode && !c.voiceConc && !c.recPlayConc && !c.afeProxy
    ensures Resolved(q.flags, q, c, false) == {Direct}
  {
    assert Asked(q.flags, q, c) == {Direct, DeepBuffer};
    assert {Direct, DeepBuffer} - {DeepBuffer} == {Direct};
  }

  // ---------- What each step leaves, in terms of the whole ----------

  /** VoIP is refused exactly in a held call, if so configured. */
  lemma RefusedIff(f: Flags, c: Conditions)
    ensures VoiceRefuses(AfterVr(f, c), c) <==>
              && c.voiceConc && c.voipConcDisabled && VoipRx in f && c.voiceCallState
              && (c.phoneState == InCall || (c.phoneState == InCommunication && c.prevPhoneState == InCall))
  {
  }

  /** The later checks look neither at VR nor at calls. */
  lemma LaterChecks(f: Flags, q: Request, c: Conditions, vr: bool, voice: bool)
    ensures AskedAfterVoice(f, q, c) == AskedAfterVoice(f, q, c.(vrMode := vr, voiceConc := voice))
  {
  }

  /** VR takes FAST and RAW away, and that is all. */
  lemma VrLeaves(f: Flags, q: Request, c: Conditions, g: Flags)
    requires g == if c.vrMode then f - {Fast, Raw} else f
    ensures Asked(f, q, c) == Asked(g, q, c.(vrMode := false))
  {
    LaterChecks(AfterVoice(g, q.stream, c), q, c, false, c.voiceConc);
    assert AfterVr(f, c) == g;
    assert AfterVoice(g, q.stream, c.(vrMode := false)) == AfterVoice(g, q.stream, c);
  }

  /** What a held call leaves of the flags, if playback is to give way to it.  With FAST to fall back on,
      nothing is deep-buffered, offloaded or direct PCM; with deep buffering to fall back on, nothing is
      offloaded or direct PCM, and only music is deep-buffered instead.  VoIP is left alone. */
  lemma HeldCallLeaves(f: Flags, q: Request, c: Conditions, g: Flags)
    requires !c.vrMode && c.voiceConc && c.playConcDisabled && c.voiceCallState
    requires c.phoneState == InCall || (c.phoneState == InCommunication && c.prevPhoneState == InCall)
    requires g ==
      if VoipRx in f then f
      else if c.fallBack == {Fast} && (DeepBuffer in f || CompressOffload in f || DirectPcm in f) then {Fast}
      else if c.fallBack == {DeepBuffer} && (CompressOffload in f || DirectPcm in f) then
        if q.stream == Music then {DeepBuffer} else {Fast}
      else f
    ensures Asked(f, q, c) == Asked(g, q, c.(voiceConc := false))
  {
    HeldStep(f, q.stream, c);
    LaterChecks(g, q, c, false, false);
  }

  lemma HeldStep(f: Flags, stream: Stream, c: Conditions)
    requires c.voiceConc && c.playConcDisabled && CallHeld(c)
    ensures AfterVoice(f, stream, c) ==
      if VoipRx in f then f
      else if c.fallBack == {Fast} && (DeepBuffer in f || CompressOffload in f || DirectPcm in f) then {Fast}
      else if c.fallBack == {DeepBuffer} && (CompressOffload in f || DirectPcm in f) then
        if stream == Music then {DeepBuffer} else {Fast}
      else f
  {
    assert f !! {CompressOffload, DirectPcm} <==> CompressOffload !in f && DirectPcm !in f;
    assert f !! {DeepBuffer, CompressOffload, DirectPcm} <==>
        DeepBuffer !in f && CompressOffload !in f && DirectPcm !in f;
    assert {Fast} != {DeepBuffer} by { assert Fast in {Fast} && Fast !in {DeepBuffer}; }
  }

  /** In a held call that playback gives way to, nothing but VoIP is offloaded or direct PCM, whatever
      else goes on; and with FAST to fall back on nothing is deep-buffered, unless for a recording. */
  lemma HeldCallIsSafe(f: Flags, q: Request, c: Conditions)
    requires c.voiceConc && c.playConcDisabled && c.voiceCallState && c.fallBack in {{Fast}, {DeepBuffer}}
    requires c.phoneState == InCall || (c.phoneState == InCommunication && c.prevPhoneState == InCall)
    requires VoipRx !in f
    ensures CompressOffload !in Asked(f, q, c) && DirectPcm !in Asked(f, q, c)
    ensures c.fallBack == {Fast} && !(c.recPlayConc && c.recPlayConcDisabled && c.inputActive) ==>
              DeepBuffer !in Asked(f, q, c)
  {
    var v := AfterVr(f, c);
    HeldStep(v, q.stream, c);
    var w := AfterVoice(v, q.stream, c);
    assert CompressOffload !in w && DirectPcm !in w && (c.fallBack == {Fast} ==> DeepBuffer !in w);
    NothingComes(w, q, c);
  }

  /** After the check for calls nothing is offloaded or direct PCM that was not, and only recording brings
      deep buffering. */
  lemma NothingComes(f: Flags, q: Request, c: Conditions)
    ensures var a := AskedAfterVoice(f, q, c);
      && (CompressOffload in a ==> CompressOffload in f) && (DirectPcm in a ==> DirectPcm in f)
      && (DeepBuffer in a ==> DeepBuffer in f || (c.recPlayConc && c.recPlayConcDisabled && c.inputActive))
  {
    var r := AfterRecord(f, q.stream, c);
    var p := AfterProxy(r, q.stream, c);
    assert CompressOffload in p ==> CompressOffload in f;
    assert DirectPcm in p ==> DirectPcm in f;
    assert DeepBuffer in p ==> DeepBuffer in r;
  }

  /** Without a held call, or if playback need not give way, the flags are left alone. */
  lemma NoHeldCallLeaves(f: Flags, q: Request, c: Conditions)
    requires !c.vrMode
    requires !c.voiceConc || !c.playConcDisabled || !c.voiceCallState
      || (c.phoneState != InCall && (c.phoneState != InCommunication || c.prevPhoneState != InCall))
    ensures Asked(f, q, c) == Asked(f, q, c.(voiceConc := false))
  {
    assert AfterVoice(AfterVr(f, c), q.stream, c) == f;
    LaterChecks(f, q, c, false, false);
  }

  /** What recording leaves of the flags: FAST for the sound that must be heard, recording or not; while
      an input is active, deep buffering for all but FAST and the VoIP of a VoIP call. */
  lemma RecordingLeaves(f: Flags, q: Request, c: Conditions, g: Flags)
    requires !c.vrMode && !c.voiceConc
    requires g ==
      if !(c.recPlayConc && c.recPlayConcDisabled) then f
      else if q.stream == EnforcedAudible then {Fast}
      else if c.inputActive && Fast !in f && (VoipRx !in f || c.phoneState != InCommunication) then {DeepBuffer}
      else f
    ensures Asked(f, q, c) == Asked(g, q, c.(recPlayConc := false))
  {
    RecordStep(f, q.stream, c);
    LastChecks(g, q, c, c.(recPlayConc := false));
  }

  lemma RecordStep(f: Flags, stream: Stream, c: Conditions)
    ensures AfterRecord(f, stream, c) ==
      if !(c.recPlayConc && c.recPlayConcDisabled) then f
      else if stream == EnforcedAudible then {Fast}
      else if c.inputActive && Fast !in f && (VoipRx !in f || c.phoneState != InCommunication) then {DeepBuffer}
      else f
  {
  }

  /** The last checks do not look at recording. */
  lemma LastChecks(f: Flags, q: Request, c: Conditions, d: Conditions)
    requires d == c.(recPlayConc := d.recPlayConc)
    ensures AskedAfterRecord(f, q, c) == AskedAfterRecord(f, q, d)
  {
  }

  /** While a proxy device is there, no stream but music goes direct: what asked for a direct stream is
      left without any flag, as the check that follows takes it away again, and all else is FAST. */
  lemma ProxyLeaves(f: Flags, q: Request, c: Conditions)
    requires !c.vrMode && !c.voiceConc && !c.recPlayConc && c.afeProxy && c.proxyAvailable && q.stream != Music
    ensures Asked(f, q, c) == if Direct in f then {} else {Fast}
  {
    assert {Direct} !! {CompressOffload, HwAvSync} && {Fast} !! {CompressOffload, HwAvSync};
    assert Fast in {Fast} && Fast !in {Direct};
  }

  /** The rest: offloading and hardware A/V synchronisation go direct, plain music does if offloading is
      enabled for its usage, and a plain direct request of anything else does not. */
  lemma QuietLeaves(f: Flags, q: Request, c: Conditions)
    requires !c.vrMode && !c.voiceConc && !c.recPlayConc && !(c.afeProxy && c.proxyAvailable && q.stream != Music)
    ensures CompressOffload in f || HwAvSync in f ==> Asked(f, q, c) == f + {Direct}
    ensures f == {} ==>
              Asked(f, q, c) == if q.stream == Music && !c.offloadDisabled && (q.usage == Media || q.usage == Game)
                                then {Direct} else {}
    ensures f == {Direct} ==> Asked(f, q, c) == if q.stream == Music && !c.offloadDisabled then {Direct} else {}
    ensures CompressOffload !in f && HwAvSync !in f && f != {} && f != {Direct} ==> Asked(f, q, c) == f
  {
    if CompressOffload in f || HwAvSync in f {
      assert CompressOffload in f + {Direct} || HwAvSync in f + {Direct};
    }
  }

  /** What the open outputs and the stream make of the flags asked for: TTS and music for the far end of
      a call have outputs of their own; otherwise music is left alone, and any other stream is not
      deep-buffered, and loses all its flags if it asked for a direct stream while direct PCM is open. */
  lemma StreamLeaves(f: Flags, q: Request, c: Conditions, pcmOpen: bool)
    ensures var a, r := Asked(f, q, c), Resolved(f, q, c, pcmOpen);
      if q.stream == TtsStream then r == {Tts}
      else if q.stream == Music then
        r == if (set d <- q.devices :: d.kind) == {TelephonyTx} && LinearPcm(q.format) && c.inCall then {IncallMusic}
             else a
      else r == if Direct in a && pcmOpen then {} else a - {DeepBuffer}
  {
  }

  /** The flags of a mixed output: deep buffering for plain, direct or offloaded music outside calls, if
      so configured; otherwise what is left without the direct stream, or the primary output. */
  lemma MixedForIs(f: Flags, q: Request, c: Conditions)
    ensures q.stream == Music && c.deepbufferMedia && !c.inCall && (f <= {Direct} || CompressOffload in f) ==>
              MixedFor(f, q, c) == {DeepBuffer}
    ensures !(q.stream == Music && c.deepbufferMedia && !c.inCall && (f <= {Direct} || CompressOffload in f)) ==>
              MixedFor(f, q, c) == if f <= {Direct} then {Primary} else f - {Direct}
  {
    if f <= {Direct} {
      assert f == {} || f == {Direct} by {
        if Direct in f {
          assert f == {Direct};
        }
      }
    }
  }

  /** Compressed VoIP: the VoIP path exactly for mono 16-bit PCM voice at a rate that it has, while it is
      free and the voice path is to be used; the primary output for any other PCM voice. */
  lemma CompressVoipIs(q: Request, c: Conditions)
    ensures !(q.stream == VoiceCall && LinearPcm(q.format)) ==> CompressVoip(q, c) == q.flags
    ensures q.stream == VoiceCall && LinearPcm(q.format) ==>
              CompressVoip(q, c) == if
                && q.channelMask == 1 && q.sampleRate in {8000, 16000, 32000, 48000} && q.format == Pcm16
                && c.voipOutCount == 0 && (c.voipSampleRate == 0 || c.voipSampleRate == q.sampleRate)
                && c.voicePathForPcmVoip
              then {VoipRx, Direct} else {Fast, Primary}
  {
  }
}
