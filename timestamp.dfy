// mednafen/jittimestamp.h and mednafen/jittimestamp.cpp: the timing
// counter shared by the recompiled code and the rest of the emulator.
//
// Recompiled blocks only decrement the CPU's `downcount`; the cycles they
// have run since the slice began, `cur_slice_length - downcount`, are
// folded into `internal_timestamp` lazily.  The globals are the fields of a
// `Timing` object, and `downcount` is the field of the CPU state it points
// at.  The timestamps are uint32 and the two counters int32; every
// assignment reduces its value to the target's type modulo 2^32 (a signed
// overflow, undefined in C++, is taken to wrap like the hardware does).
module Timestamp {
  import opened Words
  import opened Mips

  // The two values of CoreState the counter sets (jit/Common/DumbCoreStuff.h).
  const CoreRunning: uint32 := 0
  const CoreNextFrame: uint32 := 1

  /**
   * The timestamp once the cycles run in the current slice are folded in,
   * computed as update_from_downcount and force_check do (an int32
   * difference added to a uint32): the exact sum, modulo 2^32.
   */
  function Folded(timestamp: uint32, sliceLength: int32, downcount: int32): (r: uint32)
    ensures r == Wrap32(timestamp + sliceLength - downcount)
  {
    WrapS32Add(sliceLength - downcount, timestamp);
    Wrap32(timestamp + WrapS32(sliceLength - downcount))
  }

  /** A slice with nothing run yet folds to the timestamp itself. */
  lemma FoldedUnstarted(timestamp: uint32, sliceLength: int32)
    ensures Folded(timestamp, sliceLength, sliceLength) == timestamp
  {
  }

  /**
   * Charging `inc` cycles to the timestamp and to both counters leaves the
   * folded timestamp `inc` later.
   */
  lemma FoldedAfterCharge(timestamp: uint32, sliceLength: int32, downcount: int32, inc: uint32)
    ensures Folded(Wrap32(timestamp + inc), WrapS32(sliceLength - inc), WrapS32(downcount - inc))
         == Wrap32(Folded(timestamp, sliceLength, downcount) + inc)
  {
    var f := Folded(timestamp, sliceLength, downcount);
    var k := Quot32(timestamp + sliceLength - downcount) - Quot32(timestamp + inc)
           - QuotS32(sliceLength - inc) + QuotS32(downcount - inc);
    assert Wrap32(timestamp + inc) + WrapS32(sliceLength - inc) - WrapS32(downcount - inc)
        == f + inc + k * 0x1_0000_0000;
    Wrap32Periodic(f + inc, k);
  }

  /**
   * Charging `inc` cycles to the timestamp and then starting the slice
   * afresh at the downcount leaves a folded timestamp that counts only
   * `inc`: the cycles run in the slice before are gone.
   */
  lemma FoldedAfterReset(timestamp: uint32, sliceLength: int32, downcount: int32, inc: uint32)
    ensures Folded(Wrap32(timestamp + inc), WrapS32(downcount - inc), WrapS32(downcount - inc))
         == Wrap32(timestamp + inc)
    ensures Wrap32(Folded(timestamp, sliceLength, downcount) + inc) == Wrap32(timestamp + inc)
        <==> Wrap32(sliceLength - downcount) == 0
  {
    FoldedUnstarted(Wrap32(timestamp + inc), WrapS32(downcount - inc));
    Wrap32Add(timestamp + sliceLength - downcount, inc);
    assert timestamp + sliceLength - downcount + inc == (timestamp + inc) + (sliceLength - downcount);
    Wrap32Shift(timestamp + inc, sliceLength - downcount);
  }

  /** Charging the same amount to both counters keeps the cycles run in the slice. */
  lemma ChargeKeepsSlice(sliceLength: int32, downcount: int32, inc: int)
    ensures WrapS32(WrapS32(sliceLength - inc) - WrapS32(downcount - inc)) == WrapS32(sliceLength - downcount)
  {
    var k := QuotS32(downcount - inc) - QuotS32(sliceLength - inc);
    assert WrapS32(sliceLength - inc) - WrapS32(downcount - inc) == sliceLength - downcount + k * 0x1_0000_0000;
    Wrap32Periodic(sliceLength - downcount, k);
    WrapS32Congruent(WrapS32(sliceLength - inc) - WrapS32(downcount - inc), sliceLength - downcount);
  }

  /** Moving the timestamp forward by what the slice is shortened by keeps the slice's end. */
  lemma ChargeKeepsSchedule(timestamp: uint32, sliceLength: int32, inc: int)
    ensures Wrap32(Wrap32(timestamp + inc) + WrapS32(sliceLength - inc)) == Wrap32(timestamp + sliceLength)
  {
    var q := Quot32(timestamp + inc) + QuotS32(sliceLength - inc);
    assert Wrap32(timestamp + inc) + WrapS32(sliceLength - inc) == timestamp + sliceLength + -q * 0x1_0000_0000;
    Wrap32Periodic(timestamp + sliceLength, -q);
  }

  /** A slice of length `next - now` started at `now` ends at `next`. */
  lemma ScheduleReached(now: uint32, next: uint32)
    ensures Wrap32(now + WrapS32(next - now)) == next
  {
    WrapS32Add(next - now, now);
  }

  /**
   * A slice length computed as `next - now` is negative exactly when the
   * event lies in the past, as long as the two are less than 2^31 cycles
   * apart.
   */
  lemma SliceSign(next: uint32, now: uint32)
    requires -0x8000_0000 <= next - now < 0x8000_0000
    ensures WrapS32(next - now) < 0 <==> next < now
  {
    WrapS32Identity(next as int - now as int);
  }

  /**
   * The timing globals and the CPU's downcount, as one value.  The
   * operations below are the specification of the methods of `Timing`.
   */
  datatype Clock = Clock(
    timestamp: uint32,      // internal_timestamp
    lastTs: uint32,         // last_ts
    sliceLength: int32,     // cur_slice_length
    nextEvent: uint32,      // next_event_ts
    coreState: uint32,      // coreState
    downcount: int32)       // currentMIPS->downcount

  /** The timestamp with the cycles of the current slice folded in. */
  function Now(c: Clock): uint32
  {
    Folded(c.timestamp, c.sliceLength, c.downcount)
  }

  /** The cycles run in the current slice, as an int32. */
  function Pending(c: Clock): int32
  {
    WrapS32(c.sliceLength - c.downcount)
  }

  /**
   * The slice ends at the next event and the timestamp has no direct change
   * waiting to be charged to the counters.
   */
  predicate OnSchedule(c: Clock)
  {
    c.lastTs == c.timestamp && Wrap32(c.lastTs + c.sliceLength) == c.nextEvent
  }

  /** JITTS_Init. */
  function AfterInit(c: Clock): Clock
  {
    c.(timestamp := 0)
  }

  /** JTTTS_increment_timestamp as written: the slice length is reset to the downcount. */
  function AfterIncrementAsWritten(c: Clock, inc: uint32): Clock
  {
    var timestamp := Wrap32(c.timestamp + inc);
    var downcount := WrapS32(c.downcount - inc);
    c.(timestamp := timestamp, lastTs := timestamp, downcount := downcount, sliceLength := downcount)
  }

  /** JTTTS_increment_timestamp with `inc` charged to the slice length as to the downcount. */
  function AfterIncrement(c: Clock, inc: uint32): Clock
  {
    var timestamp := Wrap32(c.timestamp + inc);
    c.(timestamp := timestamp, lastTs := timestamp,
       downcount := WrapS32(c.downcount - inc), sliceLength := WrapS32(c.sliceLength - inc))
  }

  /** JTTTS_update_from_direct_access. */
  function AfterUpdateFromDirectAccess(c: Clock): Clock
  {
    var delta := Wrap32(c.timestamp - c.lastTs);
    c.(downcount := WrapS32(c.downcount - delta), sliceLength := WrapS32(c.sliceLength - delta),
       lastTs := c.timestamp)
  }

  /** JITTS_update_from_downcount. */
  function AfterUpdateFromDowncount(c: Clock): Clock
  {
    var cyclesEx := WrapS32(c.sliceLength - c.downcount);
    var timestamp := Wrap32(c.timestamp + cyclesEx);
    var sliceLength := WrapS32(c.nextEvent - timestamp);
    c.(timestamp := timestamp, lastTs := timestamp, sliceLength := sliceLength, downcount := sliceLength,
       coreState := if sliceLength < 0 then CoreNextFrame else c.coreState)
  }

  /** JITTS_set_next_event. */
  function AfterSetNextEvent(c: Clock, ts: uint32): Clock
  {
    AfterUpdateFromDowncount(c.(nextEvent := ts, coreState := CoreRunning))
  }

  /** JITTS_force_check. */
  function AfterForceCheck(c: Clock): Clock
  {
    var cyclesEx := WrapS32(c.sliceLength - c.downcount);
    c.(timestamp := Wrap32(c.timestamp + cyclesEx), sliceLength := -1, downcount := -1)
  }

  /** Restarting the timestamp leaves the counters, the schedule and the core state alone. */
  lemma InitRestarts(c: Clock)
    ensures AfterInit(c).timestamp == 0 && Now(AfterInit(c)) == Wrap32(Pending(c))
    ensures AfterInit(c).(timestamp := c.timestamp) == c
  {
    WrapS32Add(c.sliceLength - c.downcount, 0);
  }

  /** Charging `inc` cycles moves the folded timestamp by exactly `inc`. */
  lemma IncrementKeepsTime(c: Clock, inc: uint32)
    ensures Now(AfterIncrement(c, inc)) == Wrap32(Now(c) + inc)
  {
    var r := AfterIncrement(c, inc);
    assert r.timestamp == Wrap32(c.timestamp + inc);
    assert r.sliceLength == WrapS32(c.sliceLength - inc) && r.downcount == WrapS32(c.downcount - inc);
    FoldedAfterCharge(c.timestamp, c.sliceLength, c.downcount, inc);
  }

  /**
   * Charging `inc` cycles takes `inc` off the downcount and keeps the cycles
   * run in the slice, the next event and the core state.
   */
  lemma IncrementKeepsSlice(c: Clock, inc: uint32)
    ensures AfterIncrement(c, inc).downcount == WrapS32(c.downcount - inc)
    ensures Pending(AfterIncrement(c, inc)) == Pending(c)
    ensures AfterIncrement(c, inc).nextEvent == c.nextEvent && AfterIncrement(c, inc).coreState == c.coreState
  {
    var r := AfterIncrement(c, inc);
    assert r.sliceLength == WrapS32(c.sliceLength - inc) && r.downcount == WrapS32(c.downcount - inc);
    ChargeKeepsSlice(c.sliceLength, c.downcount, inc);
  }

  /** Charging `inc` cycles keeps the slice ending at the next event. */
  lemma IncrementKeepsSchedule(c: Clock, inc: uint32)
    requires OnSchedule(c)
    ensures OnSchedule(AfterIncrement(c, inc))
  {
    var r := AfterIncrement(c, inc);
    assert r.lastTs == r.timestamp == Wrap32(c.lastTs + inc);
    assert r.sliceLength == WrapS32(c.sliceLength - inc);
    ChargeKeepsSchedule(c.lastTs, c.sliceLength, inc);
  }

  /**
   * As written, the folded timestamp after charging `inc` is the bare
   * timestamp plus `inc`: it moves by `inc` only when no cycle of the slice
   * had run, and only then do the two versions agree.
   */
  lemma IncrementAsWrittenDropsSlice(c: Clock, inc: uint32)
    ensures Now(AfterIncrementAsWritten(c, inc)) == Wrap32(c.timestamp + inc)
    ensures Now(AfterIncrementAsWritten(c, inc)) == Wrap32(Now(c) + inc) <==> Wrap32(c.sliceLength - c.downcount) == 0
    ensures c.sliceLength == c.downcount ==> AfterIncrementAsWritten(c, inc) == AfterIncrement(c, inc)
  {
    FoldedAfterReset(c.timestamp, c.sliceLength, c.downcount, inc);
  }

  /**
   * Charging a direct change of the timestamp brings last_ts up to date and
   * takes the change off the downcount, keeping the cycles run in the slice.
   */
  lemma DirectAccessKeepsSlice(c: Clock)
    ensures AfterUpdateFromDirectAccess(c).lastTs == c.timestamp == AfterUpdateFromDirectAccess(c).timestamp
    ensures AfterUpdateFromDirectAccess(c).downcount == WrapS32(c.downcount - (c.timestamp - c.lastTs))
    ensures Pending(AfterUpdateFromDirectAccess(c)) == Pending(c)
  {
    var delta := Wrap32(c.timestamp - c.lastTs);
    var r := AfterUpdateFromDirectAccess(c);
    assert r.sliceLength == WrapS32(c.sliceLength - delta) && r.downcount == WrapS32(c.downcount - delta);
    ChargeKeepsSlice(c.sliceLength, c.downcount, delta);
    Wrap32Add(c.timestamp - c.lastTs, c.downcount);
    WrapS32Congruent(c.downcount - delta, c.downcount - (c.timestamp - c.lastTs));
  }

  /** Charging a direct change of the timestamp keeps the end of the slice where it was. */
  lemma DirectAccessKeepsSchedule(c: Clock)
    ensures Wrap32(AfterUpdateFromDirectAccess(c).lastTs + AfterUpdateFromDirectAccess(c).sliceLength)
         == Wrap32(c.lastTs + c.sliceLength)
  {
    var delta := Wrap32(c.timestamp - c.lastTs);
    var r := AfterUpdateFromDirectAccess(c);
    assert r.lastTs == c.timestamp && r.sliceLength == WrapS32(c.sliceLength - delta);
    var k := Quot32(c.timestamp - c.lastTs) - QuotS32(c.sliceLength - delta);
    assert c.timestamp + r.sliceLength == c.lastTs + c.sliceLength + k * 0x1_0000_0000;
    Wrap32Periodic(c.lastTs + c.sliceLength, k);
  }

  /** With no change to charge nothing changes, so a second call is a no-op. */
  lemma DirectAccessIdempotent(c: Clock)
    ensures c.lastTs == c.timestamp ==> AfterUpdateFromDirectAccess(c) == c
    ensures AfterUpdateFromDirectAccess(AfterUpdateFromDirectAccess(c)) == AfterUpdateFromDirectAccess(c)
  {
    if c.lastTs == c.timestamp {
      NothingToCharge(c);
    }
    NothingToCharge(AfterUpdateFromDirectAccess(c));
  }

  lemma NothingToCharge(c: Clock)
    requires c.lastTs == c.timestamp
    ensures AfterUpdateFromDirectAccess(c) == c
  {
    assert Wrap32(c.timestamp - c.lastTs) == 0;
    WrapS32Identity(c.downcount);
    WrapS32Identity(c.sliceLength);
  }

  /**
   * Updating from the downcount folds the slice into the timestamp and
   * starts a slice that ends at the next event; the core state becomes
   * NEXTFRAME exactly when that slice is negative and is otherwise kept.
   */
  lemma UpdateFromDowncountFolds(c: Clock)
    ensures AfterUpdateFromDowncount(c).timestamp == Now(c) == AfterUpdateFromDowncount(c).lastTs
    ensures Now(AfterUpdateFromDowncount(c)) == Now(c) && Pending(AfterUpdateFromDowncount(c)) == 0
    ensures OnSchedule(AfterUpdateFromDowncount(c))
    ensures AfterUpdateFromDowncount(c).downcount == AfterUpdateFromDowncount(c).sliceLength
    ensures AfterUpdateFromDowncount(c).coreState
         == if AfterUpdateFromDowncount(c).downcount < 0 then CoreNextFrame else c.coreState
  {
    var r := AfterUpdateFromDowncount(c);
    FoldedUnstarted(r.timestamp, r.sliceLength);
    ScheduleReached(r.timestamp, c.nextEvent);
  }

  /**
   * After JITTS_set_next_event(ts), the next event is ts, the slice ends at
   * it, and the core runs unless the event is already due.
   */
  lemma SetNextEventSchedules(c: Clock, ts: uint32)
    ensures AfterSetNextEvent(c, ts).nextEvent == ts && OnSchedule(AfterSetNextEvent(c, ts))
    ensures AfterSetNextEvent(c, ts).timestamp == Now(c)
    ensures AfterSetNextEvent(c, ts).coreState == if AfterSetNextEvent(c, ts).downcount < 0 then CoreNextFrame else CoreRunning
  {
    UpdateFromDowncountFolds(c.(nextEvent := ts, coreState := CoreRunning));
  }

  /**
   * Forcing a check folds the slice into the timestamp and leaves a
   * negative downcount, so the dispatcher stops at its next check; the
   * slice length of -1 matches the downcount, so nothing more is folded
   * later, and last_ts is not brought up to date.
   */
  lemma ForceCheckEndsSlice(c: Clock)
    ensures AfterForceCheck(c).timestamp == Now(c) == Now(AfterForceCheck(c))
    ensures AfterForceCheck(c).downcount < 0 && Pending(AfterForceCheck(c)) == 0
    ensures AfterForceCheck(c).lastTs == c.lastTs
  {
    FoldedUnstarted(AfterForceCheck(c).timestamp, -1);
  }

  /**
   * With 100 cycles in the slice and 40 of them run (downcount 60),
   * charging 3 cycles as written leaves a timestamp of 3 to fold where 43
   * are due.
   */
  lemma IncrementDropsPending()
    ensures Now(AfterIncrementAsWritten(Clock(0, 0, 100, 100, CoreRunning, 60), 3)) == 3
    ensures Now(AfterIncrement(Clock(0, 0, 100, 100, CoreRunning, 60), 3)) == 43
  {
    assert Wrap32(0 + 3) == 3;
    assert WrapS32(60 - 3) == 57 && WrapS32(100 - 3) == 97;
  }

  /** The globals of jittimestamp.cpp, with the CPU whose downcount they drive. */
  class Timing {
    var internalTimestamp: uint32
    var lastTs: uint32
    var curSliceLength: int32
    var nextEventTs: uint32
    var coreState: uint32
    const cpu: MipsState

    /** The static initialisers: every global starts at 0 (the core running). */
    constructor(cpu: MipsState)
      ensures this.cpu == cpu
      ensures internalTimestamp == 0 && lastTs == 0 && curSliceLength == 0 && nextEventTs == 0
      ensures coreState == CoreRunning
    {
      this.cpu := cpu;
      internalTimestamp := 0;
      lastTs := 0;
      curSliceLength := 0;
      nextEventTs := 0;
      coreState := CoreRunning;
    }

    function State(): Clock
      reads this, cpu`downcount
    {
      Clock(internalTimestamp, lastTs, curSliceLength, nextEventTs, coreState, cpu.downcount)
    }

    /** JITTS_Init: the timestamp restarts at 0; nothing else changes. */
    method Init()
      modifies this`internalTimestamp
      ensures State() == AfterInit(old(State()))
    {
      internalTimestamp := 0;
    }

    method IncrementAsWritten(inc: uint32)
      modifies this`internalTimestamp, this`lastTs, this`curSliceLength, cpu`downcount
      ensures State() == AfterIncrementAsWritten(old(State()), inc)
    {
      internalTimestamp := Wrap32(internalTimestamp + inc);
      lastTs := internalTimestamp;
      cpu.downcount := WrapS32(cpu.downcount - inc);
      curSliceLength := cpu.downcount;
    }

    method Increment(inc: uint32)
      modifies this`internalTimestamp, this`lastTs, this`curSliceLength, cpu`downcount
      ensures State() == AfterIncrement(old(State()), inc)
    {
      internalTimestamp := Wrap32(internalTimestamp + inc);
      lastTs := internalTimestamp;
      cpu.downcount := WrapS32(cpu.downcount - inc);
      curSliceLength := WrapS32(curSliceLength - inc);
    }

    method UpdateFromDirectAccess()
      modifies this`lastTs, this`curSliceLength, cpu`downcount
      ensures State() == AfterUpdateFromDirectAccess(old(State()))
    {
      var delta := Wrap32(internalTimestamp - lastTs);
      cpu.downcount := WrapS32(cpu.downcount - delta);
      curSliceLength := WrapS32(curSliceLength - delta);
      lastTs := internalTimestamp;
    }

    /** JITTS_set_min_timestamp: the earlier of the two, which becomes the timestamp. */
    method SetMinTimestamp(competing: uint32) returns (r: uint32)
      modifies this`internalTimestamp
      ensures r <= competing && r <= old(internalTimestamp)
      ensures r == competing || r == old(internalTimestamp)
      ensures internalTimestamp == r
    {
      if competing < internalTimestamp {
        internalTimestamp := competing;
      }
      r := internalTimestamp;
    }

    /** JITTS_set_max_timestamp: the later of the two, which becomes the timestamp. */
    method SetMaxTimestamp(competing: uint32) returns (r: uint32)
      modifies this`internalTimestamp
      ensures r >= competing && r >= old(internalTimestamp)
      ensures r == competing || r == old(internalTimestamp)
      ensures internalTimestamp == r
    {
      if competing > internalTimestamp {
        internalTimestamp := competing;
      }
      r := internalTimestamp;
    }

    /** JITTS_set_timestamp. */
    method SetTimestamp(timestamp: uint32)
      modifies this`internalTimestamp
      ensures internalTimestamp == timestamp
    {
      internalTimestamp := timestamp;
    }

    /** JITTS_get_timestamp: what the last SetTimestamp stored. */
    method GetTimestamp() returns (r: uint32)
      ensures r == internalTimestamp
    {
      r := internalTimestamp;
    }

    method UpdateFromDowncount()
      modifies this`internalTimestamp, this`lastTs, this`curSliceLength, this`coreState, cpu`downcount
      ensures State() == AfterUpdateFromDowncount(old(State()))
    {
      var cyclesEx := WrapS32(curSliceLength - cpu.downcount);
      internalTimestamp := Wrap32(internalTimestamp + cyclesEx);
      lastTs := internalTimestamp;
      curSliceLength := WrapS32(nextEventTs - internalTimestamp);
      cpu.downcount := curSliceLength;
      if cpu.downcount < 0 {
        coreState := CoreNextFrame;
      }
    }

    method SetNextEvent(ts: uint32)
      modifies this`internalTimestamp, this`lastTs, this`curSliceLength, this`nextEventTs, this`coreState, cpu`downcount
      ensures State() == AfterSetNextEvent(old(State()), ts)
    {
      nextEventTs := ts;
      coreState := CoreRunning;
      UpdateFromDowncount();
    }

    /** JITTS_get_next_event. */
    method GetNextEvent() returns (r: uint32)
      ensures r == nextEventTs
    {
      r := nextEventTs;
    }

    method ForceCheck()
      modifies this`internalTimestamp, this`curSliceLength, cpu`downcount
      ensures State() == AfterForceCheck(old(State()))
    {
      var cyclesEx := WrapS32(curSliceLength - cpu.downcount);
      internalTimestamp := Wrap32(internalTimestamp + cyclesEx);
      curSliceLength := -1;
      cpu.downcount := -1;
    }
  }
}
