/** getOutputForDevices of AudioPolicyManager.cpp on the outputs that are open: which one it reuses,
    closes or opens.  Closing an output, finding a profile, opening and selecting are the base
    class's; of them only what is stated here is assumed. */
module AudioOutputs {
  import opened AudioFlags
  import opened AudioCourse

  /** An output of a direct profile that is not a duplicate of others. */
  predicate OnDirectProfile(d: Descriptor) {
    !d.duplicated && Direct in d.profile.flags
  }

  class AudioPolicyManager {
    /** mOutputs, in the order of the handles. */
    var outputs: seq<Descriptor>
    /** The calls that have been made. */
    ghost var calls: seq<Call>

    ghost predicate Valid()
      reads this`outputs
    {
      forall i, j :: 0 <= i < j < |outputs| ==> outputs[i].ioHandle < outputs[j].ioHandle
    }

    /** No direct profile has two open outputs, and each of its outputs is in use. */
    ghost predicate SingleDirect()
      reads this`outputs, outputs`directOpenCount
    {
      && (forall d, e ::
          d in outputs && e in outputs && OnDirectProfile(d) && OnDirectProfile(e) && d.profile == e.profile ==> d == e)
      && (forall d :: d in outputs && OnDirectProfile(d) ==> d.directOpenCount >= 1)
    }

    /** No output of the profile is open that would count as its direct stream. */
    ghost predicate NoneOpen(p: Profile)
      reads this`outputs
    {
      forall d :: d in outputs && OnDirectProfile(d) ==> d.profile != p
    }

    // ---------- The base class ----------

    /** closeOutput: the output goes, and duplicates may go with it. */
    method CloseOutput(closed: Descriptor)
      requires Valid() && closed in outputs
      modifies this`outputs
      ensures Valid() && closed !in outputs
      ensures forall d :: d in outputs ==> d in old(outputs)
      ensures forall d :: d in old(outputs) && d != closed && !d.duplicated ==> d in outputs
    {
      var gone := *;
      var kept: seq<Descriptor> := [];
      for i := 0 to |outputs|
        invariant forall j, k :: 0 <= j < k < |kept| ==> kept[j].ioHandle < kept[k].ioHandle
        invariant forall j :: 0 <= j < |kept| && i < |outputs| ==> kept[j].ioHandle < outputs[i].ioHandle
        invariant forall d :: d in kept ==> d in outputs && d != closed
        invariant forall j :: 0 <= j < i && outputs[j] != closed && !outputs[j].duplicated ==> outputs[j] in kept
      {
        if outputs[i] != closed && !(outputs[i].duplicated && gone) {
          kept := kept + [outputs[i]];
        }
      }
      outputs := kept;
    }

    /** addOutput: the new handle finds its place among the others. */
    method AddOutput(added: Descriptor)
      requires Valid() && forall d :: d in outputs ==> d.ioHandle != added.ioHandle
      modifies this`outputs
      ensures Valid() && forall d :: d in outputs <==> d == added || d in old(outputs)
    {
      var i := 0;
      while i < |outputs| && outputs[i].ioHandle < added.ioHandle
        invariant 0 <= i <= |outputs|
        invariant forall j :: 0 <= j < i ==> outputs[j].ioHandle < added.ioHandle
      {
        i := i + 1;
      }
      outputs := outputs[..i] + [added] + outputs[i..];
    }

    method GetProfileForOutput(q: Request, flags: Flags) returns (p: ProfileOption)
      modifies this`calls
      ensures calls == old(calls) + [Lookup(flags, p)]
    {
      p := *;
      calls := calls + [Lookup(flags, p)];
    }

    method CanOpenNewIo(p: Profile) returns (ok: bool)
      modifies this`calls
      ensures calls == old(calls) + [Capacity(p, ok)]
    {
      ok := *;
      calls := calls + [Capacity(p, ok)];
    }

    /** A new descriptor of the profile, and whether its open succeeded: then its handle is new. */
    method OpenOutput(p: Profile, q: Request, flags: Flags) returns (ok: bool, d: Descriptor, ghost a: Answer)
      modifies this`calls
      ensures a == if ok then Granted(d.sampleRate, d.format, d.channelMask) else NotOpened
      ensures calls == old(calls) + [Open(p, flags, a)]
      ensures fresh(d) && d.profile == p && !d.duplicated
      ensures ok ==> d.ioHandle != NONE && forall e :: e in outputs ==> e.ioHandle != d.ioHandle
    {
      var rate: nat, format: Format, mask: bv32, actual: Flags := *, *, *, *;
      var handle := 1;
      for i := 0 to |outputs|
        invariant handle >= 1 && forall j :: 0 <= j < i ==> outputs[j].ioHandle < handle
      {
        handle := if outputs[i].ioHandle < handle then handle else outputs[i].ioHandle + 1;
      }
      ok := *;
      d := new Descriptor(if ok then handle else NONE, false, p, actual, q.devices, rate, format, mask);
      a := if ok then Granted(d.sampleRate, d.format, d.channelMask) else NotOpened;
      calls := calls + [Open(p, flags, a)];
    }

    /** An output that was opened but is of no use is closed again. */
    method CloseUnused(p: Profile)
      modifies this`calls
      ensures calls == old(calls) + [Discard(p)]
    {
      calls := calls + [Discard(p)];
    }

    method SelectOutput(q: Request, flags: Flags) returns (output: Handle)
      modifies this`calls
      ensures calls == old(calls) + [Select(flags)]
    {
      calls := calls + [Select(flags)];
      output := *;
    }

    // ---------- Looking at the open outputs ----------

    /** Voice over PCM takes the VoIP path unless it is in use; the same client on other devices
        closes it first. */
    method TakeVoip(q: Request) returns (flags: Flags)
      requires Valid()
      modifies this`outputs
      ensures Valid()
      ensures var k := FirstVoip(old(outputs));
        if k == |old(outputs)| then flags == {VoipRx, Direct} && outputs == old(outputs)
        else if Stale(old(outputs)[k], q) then
          flags == {VoipRx, Direct} && Without(old(outputs)[k], old(outputs), outputs)
        else flags == q.flags && outputs == old(outputs)
    {
      var inUse := false;
      for i := 0 to |outputs|
        invariant outputs == old(outputs) && !inUse
        invariant forall j :: 0 <= j < i ==> outputs[j].flags != {VoipRx, Direct}
      {
        var desc := outputs[i];
        if desc.flags == {VoipRx, Direct} {
          if desc.directClientSession == q.session && desc.devices != q.devices {
            CloseOutput(desc);
          } else {
            inUse := true;
          }
          break;
        }
      }
      flags := if inUse then q.flags else {VoipRx, Direct};
    }

    /** Whether direct PCM and whether offloading is in use. */
    method DirectInUse() returns (pcm: bool, offload: bool)
      ensures pcm <==> exists d :: d in outputs && d.flags == {Direct}
      ensures offload <==> exists d :: d in outputs && CompressOffload in d.flags
    {
      pcm, offload := false, false;
      for i := 0 to |outputs|
        invariant pcm <==> exists j :: 0 <= j < i && outputs[j].flags == {Direct}
        invariant offload <==> exists j :: 0 <= j < i && CompressOffload in outputs[j].flags
      {
        if outputs[i].flags == {Direct} {
          pcm := true;
        }
        if CompressOffload in outputs[i].flags {
          offload := true;
        }
      }
    }

    /** An open output of the profile: one that can be reused if there is any, else the last. */
    method FindDirect(p: Profile, q: Request, c: Conditions)
      returns (found: bool, reuse: bool, desc: Descriptor?, ghost k: nat)
      ensures found == (desc != null) && (reuse ==> found)
      ensures found <==> exists d :: d in outputs && OfProfile(d, p)
      ensures reuse <==> Reusable(outputs, p, q, c)
      ensures reuse ==> desc in outputs && CanServe(desc, p, q, c)
      ensures found && !reuse ==> LastOf(outputs, p, k) && desc == outputs[k]
      ensures !found ==> forall i: nat :: !LastOf(outputs, p, i)
    {
      found, reuse, desc, k := false, false, null, 0;
      for i := 0 to |outputs|
        invariant found == (desc != null) && !reuse
        invariant found ==> k < i && desc == outputs[k] && OfProfile(desc, p)
        invariant forall j :: 0 <= j < i && (!found || k < j) ==> !OfProfile(outputs[j], p)
        invariant forall j :: 0 <= j < i ==> !CanServe(outputs[j], p, q, c)
      {
        var d := outputs[i];
        if !d.duplicated && p == d.profile {
          found, desc, k := true, d, i;
          if && q.sampleRate == d.sampleRate && c.formatsMatch(q.format, d.format)
             && q.channelMask == d.channelMask && q.session == d.directClientSession {
            reuse := true;
            assert d in outputs && CanServe(d, p, q, c) && OfProfile(d, p);
            return;
          }
        }
      }
    }

    // ---------- The direct path ----------

    /** Find an output for the request among the direct profiles; `reused` is one that is open. */
    method DirectOutput(q: Request, c: Conditions, flags: Flags, pcm: bool, offload: bool)
      returns (a: Attempt, reused: Descriptor?, ghost course: Course)
      requires Valid() && InUse(flags, pcm, offload) && Seeks(flags, q, c)
      modifies this`outputs, this`calls
      ensures Valid() && (!c.multipleOffload && old(SingleDirect()) ==> SingleDirect())
      ensures course != NotSought && Fits(course, flags, q, c, old(outputs))
      ensures a == Outcome(course, q, c) && calls == old(calls) + CallsOf(course, flags)
      ensures Kept(course, flags, c, old(outputs), outputs) && (course.Opened? ==> IsNew(course, q))
      ensures IsReused(course, reused, old(outputs))
    {
      ghost var before := calls;
      reused := null;
      var p := GetProfileForOutput(q, flags);
      if p.NoProfile? {
        return FallBack, reused, Missing;
      }
      if Direct !in flags && Direct in p.profile.flags {
        return FallBack, reused, Rejected(p.profile);
      }
      if !c.multipleOffload && Direct in flags {
        a, reused, course := SingleOutput(p.profile, q, c, flags, pcm, offload, before);
      } else {
        a, course := OpenDirect(p.profile, q, c, flags, before);
        PlainIsKept(course, flags, c, old(outputs), outputs);
      }
    }

    /** The output that the course reuses, if it does. */
    static ghost predicate IsReused(course: Course, d: Descriptor?, open: seq<Descriptor>) {
      if d == null then !course.Reused? else d in open && course == Reused(d.profile, d.ioHandle)
    }

    /** The descriptor is the one that the course opened. */
    static ghost predicate Opens(course: Course, d: Descriptor) {
      && course.Opened? && d.ioHandle == course.handle && OfProfile(d, course.profile)
      && course.answer == Granted(d.sampleRate, d.format, d.channelMask)
    }

    /** The output that the course opened: of the profile, this client's, and used once. */
    ghost predicate IsNew(course: Course, q: Request)
      requires course.Opened?
      reads this`outputs, outputs
    {
      exists d :: d in outputs && Opens(course, d) && d.directClientSession == q.session && d.directOpenCount == 1
    }

    /** While several offloaded streams cannot coexist: reuse, refuse, or close and open. */
    method SingleOutput(
      p: Profile, q: Request, c: Conditions, flags: Flags, pcm: bool, offload: bool, ghost before: seq<Call>)
      returns (a: Attempt, reused: Descriptor?, ghost course: Course)
      requires Valid() && InUse(flags, pcm, offload) && Seeks(flags, q, c) && Exclusive(flags, c)
      requires calls == before + [Lookup(flags, Found(p))]
      modifies this`outputs, this`calls
      ensures Valid() && (old(SingleDirect()) ==> SingleDirect())
      ensures course != NotSought && Fits(course, flags, q, c, old(outputs))
      ensures a == Outcome(course, q, c) && calls == before + CallsOf(course, flags)
      ensures Kept(course, flags, c, old(outputs), outputs) && (course.Opened? ==> IsNew(course, q))
      ensures IsReused(course, reused, old(outputs))
    {
      var refused;
      refused, reused := MakeRoom(p, q, c, flags, pcm, offload);
      if refused {
        RefusedFits(p, flags, q, c, outputs);
        UntouchedIsKept(Refused(p), flags, c, outputs);
        return FallBack, reused, Refused(p);
      }
      if reused != null {
        course := Reused(p, reused.ioHandle);
        ReusedFits(p, reused, flags, q, c, outputs);
        UntouchedIsKept(course, flags, c, outputs);
        a := Done(reused.ioHandle);
      } else {
        a, course := OpenInstead(p, q, c, flags, before, old(outputs));
      }
    }

    /** A reused output is counted once more. */
    method CountReuse(desc: Descriptor, ghost all: seq<Descriptor>)
      requires desc in all && forall i, j :: 0 <= i < j < |all| ==> all[i].ioHandle < all[j].ioHandle
      modifies desc`directOpenCount
      ensures Counts(all) == Raised(old(Counts(all)), Reused(desc.profile, desc.ioHandle), all)
      ensures old(SingleDirect()) ==> SingleDirect()
    {
      desc.directOpenCount := desc.directOpenCount + 1;
    }

    /** Open a new output where the last one of the profile was. */
    method OpenInstead(
      p: Profile, q: Request, c: Conditions, flags: Flags, ghost before: seq<Call>, ghost open: seq<Descriptor>)
      returns (a: Attempt, ghost course: Course)
      requires Valid() && calls == before + [Lookup(flags, Found(p))] && WithoutLast(p, open, outputs)
      requires Seeks(flags, q, c) && Exclusive(flags, c) && Clears(p, flags, q, c, open)
      modifies this`outputs, this`calls
      ensures Valid() && (old(SingleDirect() && NoneOpen(p)) ==> SingleDirect())
      ensures Tried(course, q, c) && Fits(course, flags, q, c, open) && Kept(course, flags, c, open, outputs)
      ensures a == Outcome(course, q, c) && calls == before + CallsOf(course, flags)
      ensures course.Opened? ==> IsNew(course, q)
    {
      ghost var mid := outputs;
      a, course := OpenDirect(p, q, c, flags, before);
      TriedFits(course, flags, q, c, open);
      GrownIsKept(course, flags, q, c, open, mid, outputs);
    }

    /** The open output to reuse; or a refusal, as the last output of the profile is another client's
        while the kind asked for is in use; or room for a new one, for which that last output has been
        closed. */
    method MakeRoom(p: Profile, q: Request, c: Conditions, flags: Flags, pcm: bool, offload: bool)
      returns (refused: bool, reuse: Descriptor?)
      requires Valid() && InUse(flags, pcm, offload) && Exclusive(flags, c)
      modifies this`outputs
      ensures Valid()
      ensures reuse != null <==> old(Reusable(outputs, p, q, c))
      ensures reuse != null ==> reuse in outputs && CanServe(reuse, p, q, c)
      ensures refused <==>
                !old(Reusable(outputs, p, q, c)) && KindOpen(flags, old(outputs)) && old(OthersLast(outputs, p, q))
      ensures if refused || reuse != null then outputs == old(outputs) else WithoutLast(p, old(outputs), outputs)
      ensures old(SingleDirect()) ==> SingleDirect() && (refused || reuse != null || NoneOpen(p))
    {
      var found, same, desc;
      ghost var k;
      found, same, desc, k := FindDirect(p, q, c);
      if same {
        return false, desc;
      }
      if found {
        if && ((flags == {Direct} && pcm) || (CompressOffload in flags && offload))
           && q.session != desc.directClientSession {
          return true, null;
        }
        OnlyLast(outputs, p, k);
        CloseOutput(desc);
      }
      return false, null;
    }

    /** What is known of the outputs that are open when the direct path is taken. */
    ghost predicate InUse(flags: Flags, pcm: bool, offload: bool)
      reads this`outputs
    {
      Direct in flags ==>
        && (pcm <==> exists d :: d in outputs && d.flags == {Direct})
        && (offload <==> exists d :: d in outputs && CompressOffload in d.flags)
    }

    /** Open a new output of the profile. */
    method OpenDirect(p: Profile, q: Request, c: Conditions, flags: Flags, ghost before: seq<Call>)
      returns (a: Attempt, ghost course: Course)
      requires Valid() && calls == before + [Lookup(flags, Found(p))]
      modifies this`outputs, this`calls
      ensures Valid() && (old(SingleDirect() && NoneOpen(p)) ==> SingleDirect())
      ensures Tried(course, q, c) && course.profile == p && Grown(course, old(outputs), outputs)
      ensures a == Outcome(course, q, c) && calls == before + CallsOf(course, flags)
      ensures course.Opened? ==> IsNew(course, q)
      ensures forall d :: d in outputs && d !in old(outputs) ==> fresh(d)
    {
      var desc;
      a, desc, course := TryOpen(p, q, c, flags, before);
      if desc != null {
        Enter(desc, q, course);
      }
    }

    /** The open itself: an output that suits, if any. */
    method TryOpen(p: Profile, q: Request, c: Conditions, flags: Flags, ghost before: seq<Call>)
      returns (a: Attempt, desc: Descriptor?, ghost course: Course)
      requires calls == before + [Lookup(flags, Found(p))]
      modifies this`calls
      ensures Tried(course, q, c) && course.profile == p && a == Outcome(course, q, c)
      ensures calls == before + CallsOf(course, flags)
      ensures desc != null <==> course.Opened?
      ensures desc != null ==>
                fresh(desc) && Opens(course, desc) && forall e :: e in outputs ==> e.ioHandle != desc.ioHandle
    {
      desc := null;
      var can := CanOpenNewIo(p);
      if !can {
        return FallBack, desc, Full(p);
      }
      var ok, d;
      ghost var answer;
      ok, d, answer := OpenOutput(p, q, flags);
      if || !ok
         || (q.sampleRate != 0 && q.sampleRate != d.sampleRate)
         || (q.format != DefaultFormat && !c.formatsMatch(q.format, d.format))
         || (q.channelMask != 0 && q.channelMask != d.channelMask) {
        course := Failed(p, answer);
        if ok {
          CloseUnused(p);
        }
        if LinearPcm(q.format) && q.sampleRate <= c.sampleRateMax {
          return FallBack, desc, course;
        }
        return Done(NONE), desc, course;
      }
      return Done(d.ioHandle), d, Opened(p, answer, d.ioHandle);
    }

    /** A new output is this client's, and among the open ones. */
    method Enter(desc: Descriptor, q: Request, ghost course: Course)
      requires Valid() && Opens(course, desc) && desc !in outputs
      requires forall e :: e in outputs ==> e.ioHandle != desc.ioHandle
      modifies this`outputs, desc
      ensures Valid() && (old(SingleDirect() && NoneOpen(desc.profile)) ==> SingleDirect())
      ensures Grown(course, old(outputs), outputs) && IsNew(course, q)
      ensures forall d :: d in outputs && d !in old(outputs) ==> d == desc
    {
      desc.directOpenCount := 1;
      desc.directClientSession := q.session;
      AddOutput(desc);
    }

    // ---------- getOutputForDevices ----------

    /** The VoIP decision. */
    method TakeFlags(q: Request, c: Conditions) returns (flags: Flags)
      requires Valid()
      modifies this`outputs
      ensures Valid() && Taken(flags, q, c) && flags == old(VoipFlags(q, c, outputs))
      ensures Without(old(VoipCloses(q, c, outputs)), old(outputs), outputs)
    {
      flags := q.flags;
      if c.compressVoip {
        flags := TakeCompressed(q, c);
      } else if && q.stream == VoiceCall && LinearPcm(q.format) && q.configMask == 1
                && (q.sampleRate == 8000 || q.sampleRate == 16000 || q.sampleRate == 32000 || q.sampleRate == 48000) {
        flags := TakeVoip(q);
      }
    }

    /** The last steps, which look at the open outputs. */
    method LastFlags(q: Request, c: Conditions, f: Flags)
      returns (flags: Flags, forcedDeep: bool, pcm: bool, offload: bool)
      ensures pcm <==> Direct in f && exists d :: d in outputs && d.flags == {Direct}
      ensures offload <==> Direct in f && exists d :: d in outputs && CompressOffload in d.flags
      ensures flags == AfterStream(AfterInUse(f, q.stream, pcm), q, c)
      ensures forcedDeep == DeepWanted(flags, q, c)
    {
      flags, forcedDeep, pcm, offload := f, false, false, false;
      if Direct in flags {
        pcm, offload := DirectInUse();
        if pcm && q.stream != Music {
          flags := {};
        }
      }
      if q.stream != Music {
        flags := flags - {DeepBuffer};
      } else if (flags == {} || flags == {Direct} || CompressOffload in flags) && c.deepbufferMedia && !c.inCall {
        forcedDeep := true;
      }
      if q.stream == TtsStream {
        flags := {Tts};
      } else if && (set d <- q.devices :: d.kind) == {TelephonyTx} && q.stream == Music
                && LinearPcm(q.format) && c.inCall {
        flags := {IncallMusic};
      }
    }

    /** The flags with which outputs are looked for, if any is to be looked for. */
    method Resolve(q: Request, c: Conditions)
      returns (refused: bool, flags: Flags, forcedDeep: bool, pcm: bool, offload: bool, ghost taken: Flags)
      requires Valid() && q.stream != InvalidStream && OffloadAllowed(q.flags, q.stream)
      modifies this`outputs
      ensures Valid() && Without(old(VoipCloses(q, c, outputs)), old(outputs), outputs)
      ensures taken == old(VoipFlags(q, c, outputs)) && Taken(taken, q, c)
      ensures refused <==> VoiceRefuses(AfterVr(taken, c), c)
      ensures refused ==> flags == AfterVr(taken, c)
      ensures !refused && Direct in Asked(taken, q, c) ==> (pcm <==> exists d :: d in outputs && d.flags == {Direct})
      ensures !refused ==> && flags == Resolved(taken, q, c, pcm) && InUse(flags, pcm, offload)
                           && forcedDeep == DeepWanted(flags, q, c)
    {
      forcedDeep, pcm, offload := false, false, false;
      flags := TakeFlags(q, c);
      taken := flags;
      refused, flags := Rewrite(flags, q, c);
      if !refused {
        ghost var f := flags;
        flags, forcedDeep, pcm, offload := LastFlags(q, c, flags);
        assert Direct in flags ==> Direct in f;
      }
    }

    /** A plain direct request that is not for music with offloading enabled is made only if it slips
        through the check; for an ordinary stream exactly if, besides, no direct PCM is open. */
    ghost predicate SlipsOnly(asked: Flags, q: Request, c: Conditions, open: seq<Descriptor>) {
      && (asked == {Direct} && !(q.stream == Music && !c.offloadDisabled) ==> Slips(q.flags, q, c))
      && (Ordinary(q.stream) ==>
            (asked == {Direct} <==> Slips(q.flags, q, c) && !exists d :: d in open && d.flags == {Direct}))
    }

    /** The same, with what that says of plain direct requests; `asked` is empty after a refusal. */
    method ResolveAsked(q: Request, c: Conditions)
      returns (
        refused: bool, flags: Flags, forcedDeep: bool, pcm: bool, offload: bool, ghost taken: Flags, ghost asked: Flags)
      requires Valid() && q.stream != InvalidStream && OffloadAllowed(q.flags, q.stream)
      modifies this`outputs
      ensures Valid() && Without(old(VoipCloses(q, c, outputs)), old(outputs), outputs)
      ensures taken == old(VoipFlags(q, c, outputs)) && Taken(taken, q, c)
      ensures refused <==> VoiceRefuses(AfterVr(taken, c), c)
      ensures asked == if refused then {} else flags
      ensures !refused ==>
                && flags == Resolved(taken, q, c, pcm) && IsResolved(asked, taken, q, c, outputs)
                && InUse(flags, pcm, offload) && forcedDeep == DeepWanted(flags, q, c)
      ensures SlipsOnly(asked, q, c, old(outputs)) && (old(SingleDirect()) ==> SingleDirect())
    {
      refused, flags, forcedDeep, pcm, offload, taken := Resolve(q, c);
      asked := if refused then {} else flags;
      AskedSlips(taken, q, c, refused, pcm, exists d :: d in outputs && d.flags == {Direct}, asked);
    }

    /** getOutputForDevices.  `sought` says that outputs were looked for, with the flags `asked`, among
        those that are `open` once the VoIP decision has been taken; `course` is how the search among
        the direct ones went.  All calls of the base class are those of the course and, if it comes to
        nothing, one for a mixed output. */
    method GetOutputForDevices(q: Request, c: Conditions)
      returns (
        output: Handle, flags: Flags, ghost sought: bool, ghost asked: Flags, ghost open: seq<Descriptor>,
        ghost course: Course)
      requires Valid()
      modifies this`outputs, this`calls, outputs`directOpenCount
      ensures Valid() && (!c.multipleOffload && old(SingleDirect()) ==> SingleDirect())
      ensures Without(
                if OffloadAllowed(q.flags, q.stream) then old(VoipCloses(q, c, outputs)) else null, old(outputs), open)
      ensures sought <==>
                && q.stream != InvalidStream && (CompressOffload in q.flags ==> q.stream == Music)
                && !VoiceRefuses(AfterVr(old(VoipFlags(q, c, outputs)), c), c)
      ensures !sought ==> output == NONE && calls == old(calls) && outputs == open && asked == {} && course == NotSought
      ensures sought ==> IsResolved(asked, old(VoipFlags(q, c, outputs)), q, c, open)
      ensures sought ==> Fits(course, asked, q, c, open) && Kept(course, asked, c, open, outputs)
      ensures sought ==> calls == old(calls) + CallsOf(course, asked) + MixCalls(course, asked, q, c)
      ensures sought ==> Answered(course, asked, q, c, output, flags)
      ensures Appended(old(calls), calls, q.stream)
      ensures course.Opened? ==> IsNew(course, q)
      ensures Counts(old(outputs)) == Raised(old(Counts(outputs)), course, old(outputs))
      ensures SlipsOnly(asked, q, c, old(outputs))
    {
      output, flags, sought, asked, open, course := NONE, q.flags, false, {}, outputs, NotSought;
      NoneRaised(Counts(outputs), course, outputs);
      if q.stream == InvalidStream || (CompressOffload in flags && q.stream != Music) {
        SlippingIsAllowed(q, c);
        return;
      }
      var refused, forcedDeep, pcm, offload;
      ghost var taken;
      refused, flags, forcedDeep, pcm, offload, taken, asked := ResolveAsked(q, c);
      open, sought := outputs, !refused;
      if !refused {
        output, flags, course := Serve(q, c, flags, forcedDeep, pcm, offload, taken, old(outputs));
      }
    }

    /** The handle that a search gives, if any, is the one of an open output of this client. */
    lemma Served(course: Course, f: Flags, q: Request, c: Conditions, open: seq<Descriptor>)
      requires Valid() && Fits(course, f, q, c, open) && Kept(course, f, c, open, outputs)
      requires course.Opened? ==> IsNew(course, q)
      requires Outcome(course, q, c).Done? && Outcome(course, q, c).output != NONE
      ensures Serves(Outcome(course, q, c).output, q)
    {
      var h := Outcome(course, q, c).output;
      if course.Reused? {
        var d :| d in open && d.ioHandle == h && CanServe(d, course.profile, q, c);
        HandleNames(d, q);
      } else {
        var d :| d in outputs && Opens(course, d) && d.directClientSession == q.session;
        HandleNames(d, q);
      }
    }

    /** Handles are in ascending order, so each names one output. */
    lemma HandleNames(d: Descriptor, q: Request)
      requires Valid() && d in outputs && d.directClientSession == q.session
      ensures Serves(d.ioHandle, q)
    {
      var i :| 0 <= i < |outputs| && outputs[i] == d;
      assert Names(d.ioHandle, i);
    }

    /** The search with resolved flags, and the count of what it reuses; `all` are the outputs that were
        open to begin with. */
    method Serve(
      q: Request, c: Conditions, f: Flags, forcedDeep: bool, pcm: bool, offload: bool, ghost taken: Flags,
      ghost all: seq<Descriptor>)
      returns (output: Handle, flags: Flags, ghost course: Course)
      requires Valid() && InUse(f, pcm, offload) && f == Resolved(taken, q, c, pcm)
      requires Taken(taken, q, c) && OffloadAllowed(q.flags, q.stream) && forcedDeep == DeepWanted(f, q, c)
      requires forall d :: d in outputs ==> d in all
      requires forall i, j :: 0 <= i < j < |all| ==> all[i].ioHandle < all[j].ioHandle
      modifies this`outputs, this`calls, all`directOpenCount
      ensures Valid() && (!c.multipleOffload && old(SingleDirect()) ==> SingleDirect())
      ensures Fits(course, f, q, c, old(outputs)) && Kept(course, f, c, old(outputs), outputs)
      ensures calls == old(calls) + CallsOf(course, f) + MixCalls(course, f, q, c)
      ensures Answered(course, f, q, c, output, flags) && Appended(old(calls), calls, q.stream)
      ensures course.Opened? ==> IsNew(course, q)
      ensures Counts(all) == Raised(old(Counts(all)), course, all)
    {
      var reused;
      output, flags, reused, course := Search(q, c, f, forcedDeep, pcm, offload, taken);
      if reused != null {
        CountReuse(reused, all);
      } else {
        NoneRaised(Counts(all), course, all);
      }
    }

    /** The search with resolved flags. */
    method Search(q: Request, c: Conditions, f: Flags, forcedDeep: bool, pcm: bool, offload: bool, ghost taken: Flags)
      returns (output: Handle, flags: Flags, reused: Descriptor?, ghost course: Course)
      requires Valid() && InUse(f, pcm, offload) && f == Resolved(taken, q, c, pcm)
      requires Taken(taken, q, c) && OffloadAllowed(q.flags, q.stream) && forcedDeep == DeepWanted(f, q, c)
      modifies this`outputs, this`calls
      ensures Valid() && (!c.multipleOffload && old(SingleDirect()) ==> SingleDirect())
      ensures Fits(course, f, q, c, old(outputs)) && Answered(course, f, q, c, output, flags)
      ensures calls == old(calls) + CallsOf(course, f) + MixCalls(course, f, q, c)
      ensures Appended(old(calls), calls, q.stream)
      ensures Kept(course, f, c, old(outputs), outputs) && (course.Opened? ==> IsNew(course, q))
      ensures IsReused(course, reused, old(outputs))
    {
      output, flags, reused, course := FindOutput(q, c, f, forcedDeep, pcm, offload);
      CallsProper(course, f, taken, pcm, q, c, old(calls));
    }

    lemma CallsProper(
      course: Course, f: Flags, taken: Flags, pcm: bool, q: Request, c: Conditions, before: seq<Call>)
      requires Taken(taken, q, c) && OffloadAllowed(q.flags, q.stream) && f == Resolved(taken, q, c, pcm)
      requires calls == before + CallsOf(course, f) + MixCalls(course, f, q, c)
      ensures Appended(before, calls, q.stream)
    {
      ResolutionIsSafe(taken, q, c, pcm);
      MixedRequestIsSafe(taken, q, c, pcm);
      forall k | |before| <= k < |calls| ensures Proper(calls[k], q.stream) {
        CallsAreProper(course, f, q, c, k - |before|);
      }
    }

    /** The flags are those that the taken ones are resolved to, with these outputs open. */
    ghost predicate IsResolved(asked: Flags, taken: Flags, q: Request, c: Conditions, open: seq<Descriptor>) {
      asked == Resolved(taken, q, c, exists d :: d in open && d.flags == {Direct})
    }

    /** The handle and the flags that the client gets. */
    ghost predicate Answered(
      course: Course, f: Flags, q: Request, c: Conditions, output: Handle, flags: Flags) {
      match Outcome(course, q, c)
      case Done(h) => output == h && flags == f
      case FallBack =>
        if MixCalls(course, f, q, c) == [] then output == NONE && flags == f else flags == MixedFor(f, q, c)
    }

    /** The search: the direct outputs, unless a mixed one will obviously do; then a mixed one. */
    method FindOutput(q: Request, c: Conditions, f: Flags, forcedDeep: bool, pcm: bool, offload: bool)
      returns (output: Handle, flags: Flags, reused: Descriptor?, ghost course: Course)
      requires Valid() && InUse(f, pcm, offload) && forcedDeep == DeepWanted(f, q, c)
      modifies this`outputs, this`calls
      ensures Valid() && (!c.multipleOffload && old(SingleDirect()) ==> SingleDirect())
      ensures Fits(course, f, q, c, old(outputs)) && Answered(course, f, q, c, output, flags)
      ensures calls == old(calls) + CallsOf(course, f) + MixCalls(course, f, q, c)
      ensures Kept(course, f, c, old(outputs), outputs) && (course.Opened? ==> IsNew(course, q))
      ensures IsReused(course, reused, old(outputs))
    {
      flags, reused, course := f, null, NotSought;
      var mixable := LinearPcm(q.format) && q.sampleRate <= c.sampleRateMax && c.channelCount(q.channelMask) <= 2;
      if Direct in flags || !mixable {
        if !((CompressOffload in flags || Direct in flags) && (c.nonOffloadableEffect || c.masterMono)) {
          var a;
          a, reused, course := DirectOutput(q, c, flags, pcm, offload);
          if a.Done? {
            return a.output, flags, reused, course;
          }
        }
      }
      output, flags := MixedOutput(q, flags, forcedDeep, course, c);
    }

    /** The fallback: embedded time stamps rule it out, and it mixes PCM only. */
    method MixedOutput(q: Request, f: Flags, forcedDeep: bool, ghost course: Course, ghost c: Conditions)
      returns (output: Handle, flags: Flags)
      requires forcedDeep == DeepWanted(f, q, c) && Outcome(course, q, c) == FallBack
      modifies this`calls
      ensures calls == old(calls) + MixCalls(course, f, q, c) && Answered(course, f, q, c, output, flags)
    {
      flags, output := f, NONE;
      if HwAvSync in flags || MmapNoirq in flags {
        return;
      }
      if LinearPcm(q.format) {
        flags := flags - {Direct};
        if forcedDeep {
          flags := {DeepBuffer};
        } else if flags == {} {
          flags := {Primary};
        }
        output := SelectOutput(q, flags);
      }
    }

    /** The calls made since are all proper. */
    ghost predicate Appended(before: seq<Call>, now: seq<Call>, stream: Stream) {
      before <= now && forall k :: |before| <= k < |now| ==> Proper(now[k], stream)
    }

    /** The handle names exactly one open output, which belongs to the client. */
    ghost predicate Serves(output: Handle, q: Request)
      reads this`outputs, outputs`directClientSession
    {
      exists i :: 0 <= i < |outputs| && Names(output, i) && outputs[i].directClientSession == q.session
    }

    /** The output at i has the handle, and no other has. */
    ghost predicate Names(output: Handle, i: nat)
      requires i < |outputs|
      reads this`outputs
    {
      outputs[i].ioHandle == output && forall j :: 0 <= j < |outputs| && j != i ==> outputs[j].ioHandle != output
    }
  }
}
