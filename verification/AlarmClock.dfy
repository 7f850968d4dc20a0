/** The time encoding of an alarm (alt_alarm_start.c, alt_tick.c): a wrapping 32-bit clock and
    a one-bit rollover flag stand for an unbounded deadline. */
module AlarmClock {
  import opened Words

  datatype Timer = Timer(time: u32, rollover: bool)

  /** alt_alarm_start: the deadline nticks + 1 ticks from now. */
  function Arm(nticks: u32, clock: u32): Timer {
    var time := U32(nticks + clock + 1);
    Timer(time, time < clock)
  }

  /** The flag is cleared by the tick on which the clock wraps. */
  function Cleared(t: Timer, clock: u32): Timer {
    if t.rollover && clock == 0 then t.(rollover := false) else t
  }

  /** The callback is due at this value of the clock. */
  predicate Fires(t: Timer, clock: u32) {
    var c := Cleared(t, clock);
    c.time <= clock && !c.rollover
  }

  /** Re-arming by the callback's reply; the flag is set here, never cleared. */
  function Rearm(t: Timer, reply: u32, clock: u32): Timer {
    var time := U32(t.time + reply);
    Timer(time, t.rollover || time < clock)
  }

  /** `t` stands for the absolute deadline `due` when `now` ticks have elapsed: the deadline lies
      ahead, less than one turn of the clock away, and the flag says whether the clock must
      wrap first. */
  ghost predicate Represents(t: Timer, now: nat, due: nat) {
    && now < due < now + TWO32
    && t.time == U32(due)
    && (t.rollover <==> due / TWO32 > now / TWO32)
  }

  /** The flag marks a deadline in the next epoch exactly when the stored time is behind the clock. */
  lemma RolloverIffBehind(t: Timer, now: nat, due: nat)
    requires Represents(t, now, due)
    ensures t.rollover <==> t.time < U32(now)
  {
  }

  lemma ArmRepresents(nticks: u32, now: nat)
    requires nticks < TWO32 - 1
    ensures Represents(Arm(nticks, U32(now)), now, now + nticks + 1)
  {
  }

  /** One tick: the callback runs exactly when the deadline is reached. */
  lemma TickIsExact(t: Timer, now: nat, due: nat)
    requires Represents(t, now, due)
    ensures Fires(t, U32(now + 1)) <==> due == now + 1
    ensures due != now + 1 ==> Represents(Cleared(t, U32(now + 1)), now + 1, due)
    ensures due == now + 1 ==> Cleared(t, U32(now + 1)) == Timer(U32(due), false)
  {
  }

  /** Looking again at the same tick finds nothing to do. */
  lemma TickAgain(t: Timer, now: nat, due: nat)
    requires Represents(t, now, due)
    ensures !Fires(t, U32(now)) && Cleared(t, U32(now)) == t
  {
    assert U32(now) == 0 ==> due / TWO32 == now / TWO32;
  }

  lemma RearmRepresents(now: nat, reply: u32)
    requires 0 < reply
    ensures Represents(Rearm(Timer(U32(now), false), reply, U32(now)), now, now + reply)
  {
  }

  /** The callback times over the next `ticks` ticks, when the callback's replies are `replies`
      and a missing or zero reply deactivates the alarm. */
  ghost function Log(t: Timer, now: nat, ticks: nat, replies: seq<u32>): seq<nat>
    decreases ticks
  {
    if ticks == 0 then []
    else
      var clock := U32(now + 1);
      var c := Cleared(t, clock);
      if !Fires(t, clock) then Log(c, now + 1, ticks - 1, replies)
      else if replies == [] || replies[0] == 0 then [now + 1]
      else [now + 1] + Log(Rearm(c, replies[0], clock), now + 1, ticks - 1, replies[1..])
  }

  /** The same times on the unbounded time line: the first deadline, then each interval. */
  ghost function Schedule(due: nat, until: nat, replies: seq<u32>): seq<nat>
    decreases |replies|
  {
    if due > until then []
    else if replies == [] || replies[0] == 0 then [due]
    else [due] + Schedule(due + replies[0], until, replies[1..])
  }

  /** What has become of an alarm since it was started: its first deadline, when its callback ran,
      and what it replied each time. */
  datatype History = History(base: nat, ran: seq<nat>, replies: seq<u32>) {
    function Ran(at: nat, reply: u32): History {
      History(base, ran + [at], replies + [reply])
    }

    /** The part after the first n callbacks, for an alarm whose deadline was then `from`. */
    function Since(n: nat, from: nat): History
      requires n <= |ran| && n <= |replies|
    {
      History(from, ran[n..], replies[n..])
    }
  }

  ghost function Sum(replies: seq<u32>): nat {
    if replies == [] then 0 else replies[0] + Sum(replies[1..])
  }

  /** The callbacks up to `at` came exactly on schedule, and `due` is the next deadline. */
  ghost predicate Kept(h: History, at: nat, due: nat) {
    && |h.ran| == |h.replies| && h.ran == Schedule(h.base, at, h.replies)
    && (forall i :: 0 <= i < |h.replies| ==> h.replies[i] != 0)
    && due == h.base + Sum(h.replies) && at < due
  }

  lemma {:induction false} ScheduleFixed(due: nat, at: nat, at': nat, replies: seq<u32>)
    requires forall i :: 0 <= i < |replies| ==> replies[i] != 0
    requires at <= at' < due + Sum(replies) && |Schedule(due, at, replies)| == |replies|
    ensures Schedule(due, at', replies) == Schedule(due, at, replies)
    decreases |replies|
  {
    if replies != [] {
      ScheduleFixed(due + replies[0], at, at', replies[1..]);
    }
  }

  lemma {:induction false} ScheduleNext(due: nat, at: nat, replies: seq<u32>, reply: u32)
    requires forall i :: 0 <= i < |replies| ==> replies[i] != 0
    requires |Schedule(due, at, replies)| == |replies| && due + Sum(replies) == at + 1
    ensures Schedule(due, at + 1, replies + [reply]) == Schedule(due, at, replies) + [at + 1]
    ensures Sum(replies + [reply]) == Sum(replies) + reply
    decreases |replies|
  {
    var more := replies + [reply];
    if replies == [] {
      assert more[0] == reply && more[1..] == [];
    } else {
      assert more[0] == replies[0] && more[1..] == replies[1..] + [reply];
      ScheduleNext(due + replies[0], at, replies[1..], reply);
    }
  }

  /** A tick before the deadline. */
  lemma KeptWaits(h: History, at: nat, due: nat)
    requires Kept(h, at, due) && at + 1 < due
    ensures Kept(h, at + 1, due)
  {
    ScheduleFixed(h.base, at, at + 1, h.replies);
  }

  /** The tick of the deadline: the callback runs and asks to run again. */
  lemma KeptRuns(h: History, at: nat, reply: u32)
    requires Kept(h, at, at + 1) && 0 < reply
    ensures Kept(h.Ran(at + 1, reply), at + 1, at + 1 + reply)
  {
    ScheduleNext(h.base, at, h.replies, reply);
  }

  /** ... or asks not to: the schedule is complete. */
  lemma KeptEnds(h: History, at: nat)
    requires Kept(h, at, at + 1)
    ensures h.Ran(at + 1, 0).ran == Schedule(h.base, at + 1, h.Ran(at + 1, 0).replies)
  {
    ScheduleNext(h.base, at, h.replies, 0);
  }

  /** Exactness over whole runs, across any number of clock wraps: never early, never missed. */
  lemma {:induction false} RunIsExact(t: Timer, now: nat, due: nat, ticks: nat, replies: seq<u32>)
    requires Represents(t, now, due)
    ensures Log(t, now, ticks, replies) == Schedule(due, now + ticks, replies)
    decreases ticks
  {
    if ticks > 0 {
      TickIsExact(t, now, due);
      var c := Cleared(t, U32(now + 1));
      if due != now + 1 {
        RunIsExact(c, now + 1, due, ticks - 1, replies);
      } else if replies != [] && replies[0] != 0 {
        RearmRepresents(now + 1, replies[0]);
        RunIsExact(Rearm(c, replies[0], U32(now + 1)), now + 1, due + replies[0], ticks - 1, replies[1..]);
      }
    }
  }

  /** An alarm started with nticks < 2^32 - 1 keeps its schedule for ever after. */
  lemma StartedAlarmIsExact(nticks: u32, now: nat, ticks: nat, replies: seq<u32>)
    requires nticks < TWO32 - 1
    ensures Log(Arm(nticks, U32(now)), now, ticks, replies) ==
            Schedule(now + nticks + 1, now + ticks, replies)
  {
    ArmRepresents(nticks, now);
    RunIsExact(Arm(nticks, U32(now)), now, now + nticks + 1, ticks, replies);
  }

  const LONGEST: u32 := TWO32 - 1

  /** Started just before a wrap, even the longest delay is exact: the wrap comes at once. */
  lemma LongestDelayBeforeWrap(now: nat, ticks: nat)
    requires U32(now) == TWO32 - 1 && ticks == TWO32
    ensures Log(Arm(LONGEST, U32(now)), now, ticks, []) == [now + TWO32]
  {
    var t := Arm(LONGEST, U32(now));
    assert t == Timer(TWO32 - 1, false);
    assert U32(now + 1) == 0 && (now + 1) / TWO32 == now / TWO32 + 1;
    assert (now + TWO32) / TWO32 == now / TWO32 + 1;
    assert Represents(t, now + 1, now + TWO32);
    RunIsExact(t, now + 1, now + TWO32, ticks - 1, []);
  }

  /** Anywhere else the stored time equals the clock, no wrap is recorded, and the callback comes
      on the very next tick. */
  lemma LongestDelayElsewhere(now: nat, ticks: nat)
    requires U32(now) != TWO32 - 1 && 0 < ticks
    ensures Log(Arm(LONGEST, U32(now)), now, ticks, []) == [now + 1]
  {
    var clock := U32(now);
    assert U32(now + 1) == clock + 1;
    assert Arm(LONGEST, clock) == Timer(clock, false);
    assert Fires(Timer(clock, false), clock + 1);
  }

  /** Exactly when the first callback comes nticks + 1 ticks after the start. */
  lemma FirstCallbackExactIff(nticks: u32, now: nat)
    ensures Log(Arm(nticks, U32(now)), now, nticks + 1, []) == [now + nticks + 1]
            <==> nticks < TWO32 - 1 || U32(now) == TWO32 - 1
  {
    if nticks < TWO32 - 1 {
      StartedAlarmIsExact(nticks, now, nticks + 1, []);
    } else if U32(now) == TWO32 - 1 {
      LongestDelayBeforeWrap(now, nticks + 1);
    } else {
      LongestDelayElsewhere(now, nticks + 1);
    }
  }
}
