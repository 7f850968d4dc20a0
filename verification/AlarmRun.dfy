/** Runs of the tick routine, with other code starting and stopping alarms between ticks
    (alt_tick.c, alt_alarm_start.c). */
module AlarmRun {
  import opened Words
  import opened AlarmClock
  import opened Journal
  import opened Rounds
  import opened AlarmTick
  import opened AlarmPlan

  /** One tick period: what other code does before the tick, and what the callbacks do in it. */
  datatype Period = Period(calls: seq<Action>, plan: Alarm -> Behaviour)

  ghost predicate Possible(p: Period, pool: set<Alarm>) {
    Permitted(p.calls, pool) && Planned(p.plan, pool)
  }

  /** The state in which a run begins. */
  datatype Origin = Origin(list: seq<Alarm>, journal: seq<Op<Alarm>>, marks: map<Alarm, Marking>, now: nat)

  /** What a period came to: the list operations before the tick, the registered alarms when the tick
      began, the visits of the tick, and which of them ran the callback. */
  datatype Round = Round(before: seq<Op<Alarm>>, marks: map<Alarm, Marking>, trip: Trip<Alarm>, fired: seq<bool>)

  ghost function OpsOf(rounds: seq<Round>): seq<Op<Alarm>> {
    if rounds == [] then []
    else
      var last := rounds[|rounds| - 1];
      OpsOf(rounds[..|rounds| - 1]) + (last.before + Flat(last.trip.acts))
  }

  // ---- one alarm ----

  /** From `m` to `m'`: the callbacks run in between came exactly at the first deadline and then
      after each interval replied. */
  ghost predicate KeptSince(m: Marking, m': Marking, now: nat) {
    && m.hist.base == m'.hist.base && m.hist.ran <= m'.hist.ran && m.hist.replies <= m'.hist.replies
    && |m.hist.ran| == |m.hist.replies|
    && Kept(m'.hist.Since(|m.hist.ran|, m.due), now, m'.due)
  }

  /** Each callback of the run replied what the plan of its period says. */
  ghost predicate Answered(a: Alarm, h: History, periods: seq<Period>, start: nat) {
    |h.ran| == |h.replies| &&
    forall k :: 0 <= k < |h.ran| && h.ran[k] > start ==>
      h.ran[k] - start <= |periods| && h.replies[k] == periods[h.ran[k] - start - 1].plan(a).reply
  }

  /** With `m` and this journal: the callbacks came exactly on the schedule that begins at the
      deadline for which the alarm was last started. */
  ghost predicate Punctual(a: Alarm, m: Marking, journal: seq<Op<Alarm>>, now: nat, periods: seq<Period>, start: nat) {
    m.hist.base == FirstDue(journal, a) && Kept(m.hist, now, m.due) && Answered(a, m.hist, periods, start)
  }

  lemma KeptSinceStart(m: Marking, now: nat)
    requires Kept(m.hist, now, m.due)
    ensures KeptSince(m, m, now)
  {
    assert m.hist.Since(|m.hist.ran|, m.due) == History(m.due, [], []);
  }

  lemma KeptSinceTick(m: Marking, m1: Marking, m2: Marking, now: nat, reply: u32)
    requires KeptSince(m, m1, now) && Ticked(m1, m2, now + 1, reply) && now + 1 < m2.due
    ensures KeptSince(m, m2, now + 1)
  {
    var n := |m.hist.ran|;
    var h := m1.hist.Since(n, m.due);
    if m1.due == now + 1 {
      KeptRuns(h, now, reply);
      assert m2.hist.Since(n, m.due) == h.Ran(now + 1, reply);
    } else {
      KeptWaits(h, now, m1.due);
    }
  }

  lemma {:induction false} ScheduleUpTo(due: nat, until: nat, replies: seq<u32>)
    ensures forall k :: 0 <= k < |Schedule(due, until, replies)| ==> due <= Schedule(due, until, replies)[k] <= until
    decreases |replies|
  {
    if replies != [] && replies[0] != 0 {
      ScheduleUpTo(due + replies[0], until, replies[1..]);
    }
  }

  lemma AnsweredAtFirst(a: Alarm, h: History, due: nat, periods: seq<Period>, start: nat)
    requires Kept(h, start, due)
    ensures Answered(a, h, periods, start)
  {
    ScheduleUpTo(h.base, start, h.replies);
  }

  /** An alarm started since the last tick has not run. */
  lemma AnsweredAtStart(a: Alarm, h: History, now: nat, due: nat, periods: seq<Period>, start: nat)
    requires Kept(h, now, due) && h.base > now
    ensures Answered(a, h, periods, start)
  {
  }

  lemma AnsweredTick(a: Alarm, m: Marking, m': Marking, now: nat, periods: seq<Period>, start: nat)
    requires Answered(a, m.hist, periods, start) && start < now <= start + |periods|
    requires Ticked(m, m', now, periods[now - start - 1].plan(a).reply)
    ensures Answered(a, m'.hist, periods, start)
  {
  }

  // ---- all alarms ----

  /** Every registered alarm is on the schedule that its last start began. */
  ghost predicate Current(l: seq<Alarm>, journal: seq<Op<Alarm>>, marks: map<Alarm, Marking>, now: nat) {
    && marks.Keys == Members(l)
    && forall a :: a in l ==> marks[a].hist.base == FirstDue(journal, a) && Kept(marks[a].hist, now, marks[a].due)
  }

  /** Every alarm of the origin not stopped since is still registered and has kept its schedule; and
      every registered alarm has replied as planned. */
  ghost predicate Upheld(o: Origin, ops: seq<Op<Alarm>>, l: seq<Alarm>, journal: seq<Op<Alarm>>,
                         marks: map<Alarm, Marking>, now: nat, periods: seq<Period>)
  {
    && Distinct(o.list) && Steps(o.list, o.journal, ops, l, journal) && Current(l, journal, marks, now)
    && (forall a :: a in o.list && a !in Stopped(ops) ==>
          a in l && a in o.marks && KeptSince(o.marks[a], marks[a], now))
    && forall a :: a in l ==> Answered(a, marks[a].hist, periods, o.now)
  }

  lemma CurrentNow(s: System, pool: set<Alarm>)
    requires s.Inv() && s.Known(pool)
    ensures Current(s.list, s.journal, Marks(Members(s.list)), s.now) && Distinct(s.list)
  {
  }

  lemma UpheldAtFirst(o: Origin, periods: seq<Period>)
    requires Current(o.list, o.journal, o.marks, o.now) && Distinct(o.list)
    ensures Upheld(o, [], o.list, o.journal, o.marks, o.now, periods)
  {
    NoSteps(o.list, o.journal);
    forall a | a in o.list
      ensures KeptSince(o.marks[a], o.marks[a], o.now) && Answered(a, o.marks[a].hist, periods, o.now)
    {
      KeptSinceStart(o.marks[a], o.now);
      AnsweredAtFirst(a, o.marks[a].hist, o.marks[a].due, periods, o.now);
    }
  }

  lemma StoppedJoin(x: seq<Op<Alarm>>, y: seq<Op<Alarm>>, a: Alarm)
    requires a !in Stopped(x + y)
    ensures a !in Stopped(x) && a !in Stopped(y)
  {
    StartedJoin(x, y);
  }

  // ---- between ticks ----

  /** Whatever is started is started for a deadline ahead. */
  ghost predicate AheadOf(ops: seq<Op<Alarm>>, now: nat) {
    forall i :: 0 <= i < |ops| && ops[i].Enter? ==> ops[i].due > now
  }

  lemma {:induction false} DeedsAhead(l: seq<Alarm>, current: Alarm, live: bool, now: nat, actions: seq<Action>)
    ensures AheadOf(Deeds(l, current, live, now, actions), now)
    decreases |actions|
  {
    if actions != [] {
      DeedsAhead(l, current, live, now, actions[..|actions| - 1]);
    }
  }

  /** Alarms that are neither started nor stopped are as they were. */
  ghost predicate Untouched(l: seq<Alarm>, marks: map<Alarm, Marking>, ops: seq<Op<Alarm>>,
                            marks': map<Alarm, Marking>)
  {
    forall a :: a in l && a in marks && a in marks' && a !in Started(ops) ==> marks'[a] == marks[a]
  }

  lemma UpheldBetween(o: Origin, ops: seq<Op<Alarm>>, l1: seq<Alarm>, j1: seq<Op<Alarm>>, m1: map<Alarm, Marking>,
                      more: seq<Op<Alarm>>, l2: seq<Alarm>, j2: seq<Op<Alarm>>, m2: map<Alarm, Marking>,
                      now: nat, periods: seq<Period>)
    requires Upheld(o, ops, l1, j1, m1, now, periods) && Steps(l1, j1, more, l2, j2) && Distinct(l1)
    requires Current(l2, j2, m2, now) && Untouched(l1, m1, more, m2) && AheadOf(more, now)
    ensures Upheld(o, ops + more, l2, j2, m2, now, periods)
  {
    StepsJoin(o.list, o.journal, ops, l1, j1, more, l2, j2);
    StepsSound(l1, j1, more, l2, j2);
    assert j2 == j1 + more;
    hide KeptSince, Answered, Started, Stopped, Kept, Distinct, Steps, Sound, Replay, FirstDue;
    forall a | a in o.list && a !in Stopped(ops + more)
      ensures a in l2 && a in o.marks && KeptSince(o.marks[a], m2[a], now)
    {
      StoppedJoin(ops, more, a);
      StaysIn(l1, more, a);
    }
    forall a | a in l2 ensures Answered(a, m2[a].hist, periods, o.now) {
      if a in Started(more) {
        FirstDueAfter(j1, more, a, now);
        AnsweredAtStart(a, m2[a].hist, now, m2[a].due, periods, o.now);
      } else {
        ComesFrom(l1, more, a);
      }
    }
  }

  method Between(s: System, calls: seq<Action>, ghost pool: set<Alarm>, ghost o: Origin, ghost ops: seq<Op<Alarm>>,
                 ghost periods: seq<Period>)
    returns (ghost more: seq<Op<Alarm>>)
    requires s.Inv() && s.Known(pool) && Permitted(calls, pool)
    requires Upheld(o, ops, s.list, s.journal, Marks(Members(s.list)), s.now, periods)
    modifies s`list, s`journal, s.head`next, s.head`previous, pool
    ensures s.Inv() && s.Known(pool) && more == Deeds(old(s.list), s.head, s.tick_rate != 0, s.now, calls)
    ensures Steps(old(s.list), old(s.journal), more, s.list, s.journal)
    ensures Upheld(o, ops + more, s.list, s.journal, Marks(Members(s.list)), s.now, periods)
  {
    ghost var l1, j1, m1 := s.list, s.journal, Marks(Members(s.list));
    s.KnownApart(pool);
    CurrentNow(s, pool);
    DeedsAhead(s.list, s.head, s.tick_rate != 0, s.now, calls);
    assert s.Walking({}, s.head) && s.Present(s.head);
    assert {} - Started<Alarm>([]) == {};
    hide System.Walking, System.Known, Permitted, Deeds, Started, Steps, Upheld, Alarm.Mark, Distinct, AheadOf, Current;
    more := s.Perform(calls, s.head, {}, pool);
    assert {} - Started(more) == {};
    CurrentNow(s, pool);
    UpheldBetween(o, ops, l1, j1, m1, more, s.list, s.journal, Marks(Members(s.list)), s.now, periods);
  }

  // ---- a tick ----

  lemma DoingsAhead(l: seq<Alarm>, alarm: Alarm, live: bool, now: nat, b: Behaviour)
    ensures AheadOf(Doings(l, alarm, live, now, b), now)
  {
    DeedsAhead(l, alarm, live, now, b.actions);
  }

  lemma {:induction false} TripAhead(head: Alarm, t: Trip<Alarm>, fired: seq<bool>, marks: map<Alarm, Marking>,
                                     plan: Alarm -> Behaviour, live: bool, now: nat, k: nat)
    requires Taken(head, t, fired, marks, plan, live, now) && k <= |t.acts|
    ensures AheadOf(Flat(t.acts[..k]), now)
  {
    if k > 0 {
      TripAhead(head, t, fired, marks, plan, live, now, k - 1);
      assert RecordedAt(head, t, fired, k - 1, marks, plan, live, now);
      assert t.acts[..k][..k - 1] == t.acts[..k - 1];
      hide Doings, AllRecorded, Sound, Distinct;
      DoingsAhead(ListAt(t, k - 1), t.visited[k - 1], live, now, plan(t.visited[k - 1]));
    }
  }

  /** What the tick has done to the alarms not stopped in it. */
  ghost predicate TickedAll(l: seq<Alarm>, marks: map<Alarm, Marking>, ops: seq<Op<Alarm>>, l': seq<Alarm>,
                            marks': map<Alarm, Marking>, plan: Alarm -> Behaviour, now: nat)
  {
    forall a :: a in l && a !in Stopped(ops) ==>
      a in l' && a in marks && a in marks' && Ticked(marks[a], marks'[a], now, plan(a).reply)
  }

  lemma UpheldTick(o: Origin, ops: seq<Op<Alarm>>, l1: seq<Alarm>, j1: seq<Op<Alarm>>, m1: map<Alarm, Marking>,
                   more: seq<Op<Alarm>>, l2: seq<Alarm>, j2: seq<Op<Alarm>>, m2: map<Alarm, Marking>,
                   now: nat, periods: seq<Period>)
    requires o.now < now <= o.now + |periods|
    requires Upheld(o, ops, l1, j1, m1, now - 1, periods) && Steps(l1, j1, more, l2, j2) && Distinct(l1)
    requires Current(l2, j2, m2, now) && AheadOf(more, now)
    requires TickedAll(l1, m1, more, l2, m2, periods[now - o.now - 1].plan, now)
    ensures Upheld(o, ops + more, l2, j2, m2, now, periods)
  {
    StepsJoin(o.list, o.journal, ops, l1, j1, more, l2, j2);
    var plan := periods[now - o.now - 1].plan;
    AnsweredAfter(o, l1, j1, m1, more, l2, j2, m2, now, periods);
    KeptAhead(l2, j2, m2, now);
    hide KeptSince, Answered, Stopped, Distinct, Steps, TickedAll, Current, AheadOf;
    KeptAfter(o, ops, l1, m1, more, l2, m2, now, plan);
  }

  lemma KeptAfter(o: Origin, ops: seq<Op<Alarm>>, l1: seq<Alarm>, m1: map<Alarm, Marking>, more: seq<Op<Alarm>>,
                  l2: seq<Alarm>, m2: map<Alarm, Marking>, now: nat, plan: Alarm -> Behaviour)
    requires now > 0 && (forall a :: a in l1 ==> a in m1) && (forall a :: a in l2 ==> a in m2 && now < m2[a].due)
    requires forall a :: a in o.list && a !in Stopped(ops) ==>
      a in l1 && a in o.marks && KeptSince(o.marks[a], m1[a], now - 1)
    requires TickedAll(l1, m1, more, l2, m2, plan, now)
    ensures forall a :: a in o.list && a !in Stopped(ops + more) ==>
      a in l2 && a in o.marks && KeptSince(o.marks[a], m2[a], now)
  {
    hide KeptSince, Ticked, Stopped;
    forall a | a in o.list && a !in Stopped(ops + more)
      ensures a in l2 && a in o.marks && KeptSince(o.marks[a], m2[a], now)
    {
      StoppedJoin(ops, more, a);
      KeptSinceTick(o.marks[a], m1[a], m2[a], now - 1, plan(a).reply);
    }
  }

  lemma AnsweredAfter(o: Origin, l1: seq<Alarm>, j1: seq<Op<Alarm>>, m1: map<Alarm, Marking>, more: seq<Op<Alarm>>,
                      l2: seq<Alarm>, j2: seq<Op<Alarm>>, m2: map<Alarm, Marking>, now: nat, periods: seq<Period>)
    requires o.now < now <= o.now + |periods| && Steps(l1, j1, more, l2, j2) && Distinct(l1)
    requires Current(l2, j2, m2, now) && AheadOf(more, now) && m1.Keys == Members(l1)
    requires forall a :: a in l1 ==> Answered(a, m1[a].hist, periods, o.now)
    requires TickedAll(l1, m1, more, l2, m2, periods[now - o.now - 1].plan, now)
    ensures forall a :: a in l2 ==> Answered(a, m2[a].hist, periods, o.now)
  {
    StepsSound(l1, j1, more, l2, j2);
    assert j2 == j1 + more;
    hide Answered, Started, Stopped, Kept, Distinct, Steps, Sound, Replay, FirstDue, Ticked;
    forall a | a in l2 ensures Answered(a, m2[a].hist, periods, o.now) {
      if a in Started(more) {
        FirstDueAfter(j1, more, a, now);
        AnsweredAtStart(a, m2[a].hist, now, m2[a].due, periods, o.now);
      } else {
        StayedIn(l1, more, a);
        AnsweredTick(a, m1[a], m2[a], now, periods, o.now);
      }
    }
  }

  lemma KeptAhead(l: seq<Alarm>, journal: seq<Op<Alarm>>, marks: map<Alarm, Marking>, now: nat)
    requires Current(l, journal, marks, now)
    ensures forall a :: a in l ==> now < marks[a].due
  {
  }

  lemma OutcomeParts(s: System, finished: bool, t: Trip<Alarm>, fired: seq<bool>, marks: map<Alarm, Marking>,
                     plan: Alarm -> Behaviour, turns: nat, pool: set<Alarm>)
    requires s.Outcome(finished, t, fired, marks, plan, turns, pool)
    ensures s.Known(pool) && s.Linked() && Even(t)
    ensures !finished ==> !NeverStranded(s.head, t) || turns < Bound(|t.was|, |pool|)
    ensures finished ==> s.Inv()
    ensures finished ==> TickedAll(t.was, marks, Flat(t.acts), s.list, Marks(Members(s.list)), plan, s.now)
  {
    hide AllRecorded, Stopped, Flat, Bound, Survivors, Missed, Added, NeverStranded, NeverCut, System.Known, Ticked;
  }

  /** A tick. If the callbacks stop at most their own alarms, it ends. */
  method Once(s: System, plan: Alarm -> Behaviour, turns: nat, ghost pool: set<Alarm>, ghost o: Origin,
              ghost ops: seq<Op<Alarm>>, ghost periods: seq<Period>)
    returns (finished: bool, ghost t: Trip<Alarm>, ghost fired: seq<bool>)
    requires s.Inv() && s.Known(pool) && Planned(plan, pool)
    requires o.now <= s.now < o.now + |periods| && plan == periods[s.now - o.now].plan
    requires Upheld(o, ops, s.list, s.journal, Marks(Members(s.list)), s.now, periods)
    modifies s`list, s`journal, s`nticks, s`now, s.head`next, s.head`previous, pool
    ensures s.now == old(s.now) + 1 && s.Known(pool) && s.Linked() && t.was == old(s.list)
    ensures Taken(s.head, t, fired, old(Marks(Members(s.list))), plan, s.tick_rate != 0, s.now)
    ensures Within(s.head, t, turns) && (finished <==> NextOf(s.head, t) == s.head)
    ensures !finished ==> !NeverStranded(s.head, t) || turns < Bound(|t.was|, |pool|)
    ensures Modest(plan, pool) && turns >= |pool| ==> finished
    ensures Steps(old(s.list), old(s.journal), Flat(t.acts), s.list, s.journal)
    ensures finished ==> s.Inv()
    ensures finished ==> Upheld(o, ops + Flat(t.acts), s.list, s.journal, Marks(Members(s.list)), s.now, periods)
  {
    hide Members, Marks, System.Inv, System.Walking, System.Known, System.Linked, System.Outcome, Planned, Modest;
    hide Steps, Upheld, Flat, Distinct, Taken, Within, NextOf, NeverStranded, Bound, TickedAll, AheadOf, Current;
    ghost var l1, j1, m1 := s.list, s.journal, Marks(Members(s.list));
    OnceStarts(s, pool);
    finished, t, fired := s.Tick(plan, turns, pool);
    OnceEnds(s, finished, t, fired, m1, plan, turns, pool);
    if finished {
      CurrentNow(s, pool);
      UpheldTick(o, ops, l1, j1, m1, Flat(t.acts), s.list, s.journal, Marks(Members(s.list)), s.now, periods);
    }
  }

  lemma OnceStarts(s: System, pool: set<Alarm>)
    requires s.Inv() && s.Known(pool)
    ensures Distinct(s.list) && |s.list| <= |pool| && forall a :: a in s.list ==> a in pool
  {
    DistinctFits(s.list, pool);
  }

  lemma OnceEnds(s: System, finished: bool, t: Trip<Alarm>, fired: seq<bool>, marks: map<Alarm, Marking>,
                 plan: Alarm -> Behaviour, turns: nat, pool: set<Alarm>)
    requires s.Outcome(finished, t, fired, marks, plan, turns, pool)
    requires |t.was| <= |pool| && forall a :: a in t.was ==> a in pool
    ensures s.Known(pool) && s.Linked() && Taken(s.head, t, fired, marks, plan, s.tick_rate != 0, s.now)
    ensures Within(s.head, t, turns) && (finished <==> NextOf(s.head, t) == s.head)
    ensures !finished ==> !NeverStranded(s.head, t) || turns < Bound(|t.was|, |pool|)
    ensures Modest(plan, pool) && turns >= |pool| ==> finished
    ensures AheadOf(Flat(t.acts), s.now) && (finished ==> s.Inv())
    ensures finished ==> TickedAll(t.was, marks, Flat(t.acts), s.list, Marks(Members(s.list)), plan, s.now)
  {
    hide *;
    OutcomeTaken(s, finished, t, fired, marks, plan, turns, pool);
    OutcomeParts(s, finished, t, fired, marks, plan, turns, pool);
    EndsIfModest(s.head, t, fired, marks, plan, s.tick_rate != 0, s.now, turns, pool);
    AllAhead(s.head, t, fired, marks, plan, s.tick_rate != 0, s.now);
  }

  lemma AllAhead(head: Alarm, t: Trip<Alarm>, fired: seq<bool>, marks: map<Alarm, Marking>,
                 plan: Alarm -> Behaviour, live: bool, now: nat)
    requires Taken(head, t, fired, marks, plan, live, now)
    ensures AheadOf(Flat(t.acts), now)
  {
    TripAhead(head, t, fired, marks, plan, live, now, |t.acts|);
    assert t.acts[..|t.acts|] == t.acts;
  }

  lemma EndsIfModest(head: Alarm, t: Trip<Alarm>, fired: seq<bool>, marks: map<Alarm, Marking>,
                     plan: Alarm -> Behaviour, live: bool, now: nat, turns: nat, pool: set<Alarm>)
    requires Taken(head, t, fired, marks, plan, live, now) && Within(head, t, turns)
    requires |t.was| <= |pool| && forall a :: a in t.was ==> a in pool
    ensures Modest(plan, pool) && turns >= |pool| ==> NextOf(head, t) == head && EachInTurn(t)
  {
    if Modest(plan, pool) && turns >= |pool| {
      ModestIsBackward(t.was, marks, plan, now, pool);
      TakenInTurnIff(head, t, fired, marks, plan, live, now, turns);
    }
  }

  // ---- runs ----

  /** One round: from the list and journal before it to the tick number `now`. Everything the calls
      and the callbacks did is told from what they are and from the alarms' schedules. */
  ghost predicate RoundIs(r: Round, head: Alarm, live: bool, turns: nat, l: seq<Alarm>, journal: seq<Op<Alarm>>,
                          now: nat, p: Period, periods: seq<Period>, start: nat)
  {
    && now > 0 && r.before == Deeds(l, head, live, now - 1, p.calls) && r.trip.was == Replay(l, r.before)
    && Taken(head, r.trip, r.fired, r.marks, p.plan, live, now) && Within(head, r.trip, turns)
    && forall a :: a in r.trip.was ==> Punctual(a, r.marks[a], journal + r.before, now - 1, periods, start)
  }

  /** The rounds so far; all but the last have ended. */
  ghost predicate Chronicle(rounds: seq<Round>, head: Alarm, live: bool, turns: nat, o: Origin, periods: seq<Period>) {
    && |rounds| <= |periods|
    && forall i :: 0 <= i < |rounds| ==> RoundAt(rounds, i, head, live, turns, o, periods)
  }

  ghost predicate RoundAt(rounds: seq<Round>, i: nat, head: Alarm, live: bool, turns: nat, o: Origin,
                          periods: seq<Period>)
    requires i < |rounds| && i < |periods|
  {
    var ops := OpsOf(rounds[..i]);
    && RoundIs(rounds[i], head, live, turns, Replay(o.list, ops), o.journal + ops, o.now + i + 1, periods[i], periods,
               o.now)
    && (i < |rounds| - 1 ==> NextOf(head, rounds[i].trip) == head)
  }

  lemma OpsOfMore(rounds: seq<Round>, r: Round)
    ensures OpsOf(rounds + [r]) == OpsOf(rounds) + (r.before + Flat(r.trip.acts))
  {
    assert (rounds + [r])[..|rounds|] == rounds;
  }

  lemma ChronicleGrows(rounds: seq<Round>, r: Round, head: Alarm, live: bool, turns: nat, o: Origin,
                       periods: seq<Period>)
    requires Chronicle(rounds, head, live, turns, o, periods) && |rounds| < |periods|
    requires rounds != [] ==> var t := rounds[|rounds| - 1].trip; Even(t) && NextOf(head, t) == head
    requires var ops, n := OpsOf(rounds), |rounds|;
      RoundIs(r, head, live, turns, Replay(o.list, ops), o.journal + ops, o.now + n + 1, periods[n], periods, o.now)
    ensures Chronicle(rounds + [r], head, live, turns, o, periods)
  {
    var more := rounds + [r];
    hide RoundAt, RoundIs, OpsOf, Replay, NextOf;
    forall i | 0 <= i < |more| ensures RoundAt(more, i, head, live, turns, o, periods) {
      if i < |rounds| {
        EarlierRound(rounds, r, i, head, live, turns, o, periods);
      } else {
        LastRound(rounds, r, head, live, turns, o, periods);
      }
    }
  }

  lemma EarlierRound(rounds: seq<Round>, r: Round, i: nat, head: Alarm, live: bool, turns: nat, o: Origin,
                     periods: seq<Period>)
    requires i < |rounds| < |periods| && RoundAt(rounds, i, head, live, turns, o, periods)
    requires i == |rounds| - 1 ==> Even(rounds[i].trip) && NextOf(head, rounds[i].trip) == head
    ensures RoundAt(rounds + [r], i, head, live, turns, o, periods)
  {
    assert (rounds + [r])[..i] == rounds[..i] && (rounds + [r])[i] == rounds[i];
    hide Replay, OpsOf, NextOf, Taken, Within, Punctual;
  }

  lemma LastRound(rounds: seq<Round>, r: Round, head: Alarm, live: bool, turns: nat, o: Origin, periods: seq<Period>)
    requires |rounds| < |periods|
    requires var ops, n := OpsOf(rounds), |rounds|;
      RoundIs(r, head, live, turns, Replay(o.list, ops), o.journal + ops, o.now + n + 1, periods[n], periods, o.now)
    ensures RoundAt(rounds + [r], |rounds|, head, live, turns, o, periods)
  {
    hide RoundIs, Replay, OpsOf, NextOf;
    assert (rounds + [r])[..|rounds|] == rounds && (rounds + [r])[|rounds|] == r;
  }

  /** A period: the calls, then the tick. */
  method OnePeriod(s: System, p: Period, turns: nat, ghost pool: set<Alarm>, ghost o: Origin,
                   ghost ops: seq<Op<Alarm>>, ghost periods: seq<Period>)
    returns (finished: bool, ghost r: Round)
    requires s.Inv() && s.Known(pool) && Possible(p, pool)
    requires o.now <= s.now < o.now + |periods| && p == periods[s.now - o.now]
    requires Upheld(o, ops, s.list, s.journal, Marks(Members(s.list)), s.now, periods)
    modifies s`list, s`journal, s`nticks, s`now, s.head`next, s.head`previous, pool
    ensures s.now == old(s.now) + 1 && s.Known(pool)
    ensures RoundIs(r, s.head, s.tick_rate != 0, turns, old(s.list), old(s.journal), s.now, p, periods, o.now)
    ensures Even(r.trip) && (finished <==> NextOf(s.head, r.trip) == s.head)
    ensures !finished ==> !NeverStranded(s.head, r.trip) || turns < Bound(|r.trip.was|, |pool|)
    ensures Modest(p.plan, pool) && turns >= |pool| ==> finished
    ensures Steps(old(s.list), old(s.journal), r.before + Flat(r.trip.acts), s.list, s.journal)
    ensures finished ==> s.Inv()
    ensures finished ==>
      Upheld(o, ops + (r.before + Flat(r.trip.acts)), s.list, s.journal, Marks(Members(s.list)), s.now, periods)
  {
    hide *;
    ghost var l0, j0 := s.list, s.journal;
    PossibleIs(p, pool);
    ghost var before := Between(s, p.calls, pool, o, ops, periods);
    ghost var l1, j1, marks := s.list, s.journal, Marks(Members(s.list));
    ghost var t, fired;
    finished, t, fired := Once(s, p.plan, turns, pool, o, ops + before, periods);
    r := Round(before, marks, t, fired);
    StepsJoin(l0, j0, before, l1, j1, Flat(t.acts), s.list, s.journal);
    StepsJournal(l0, j0, before, l1, j1);
    RoundMade(r, s.head, s.tick_rate != 0, turns, l0, j0, s.now, p, o, ops + before, periods);
    assert (ops + before) + Flat(t.acts) == ops + (before + Flat(t.acts));
  }

  lemma PossibleIs(p: Period, pool: set<Alarm>)
    requires Possible(p, pool)
    ensures Permitted(p.calls, pool) && Planned(p.plan, pool)
  {
  }

  lemma StepsJournal(l: seq<Alarm>, j: seq<Op<Alarm>>, ops: seq<Op<Alarm>>, l': seq<Alarm>, j': seq<Op<Alarm>>)
    requires Steps(l, j, ops, l', j')
    ensures j' == j + ops && l' == Replay(l, ops)
  {
  }

  lemma RoundMade(r: Round, head: Alarm, live: bool, turns: nat, l: seq<Alarm>, journal: seq<Op<Alarm>>, now: nat,
                  p: Period, o: Origin, ops: seq<Op<Alarm>>, periods: seq<Period>)
    requires now > 0 && r.before == Deeds(l, head, live, now - 1, p.calls) && r.trip.was == Replay(l, r.before)
    requires Taken(head, r.trip, r.fired, r.marks, p.plan, live, now) && Within(head, r.trip, turns)
    requires Upheld(o, ops, r.trip.was, journal + r.before, r.marks, now - 1, periods)
    ensures RoundIs(r, head, live, turns, l, journal, now, p, periods, o.now) && Even(r.trip)
  {
    hide Deeds, Replay, AllRecorded, Within, KeptSince, Answered, Kept, FirstDue, Steps, Distinct;
  }

  /** Any number of periods, each of any starts and stops followed by a tick.

      The rounds tell what happened, in full. The run is done unless a callback has left its own
      successor out of the list or the turns given were too few; with as many turns as there are
      alarms it is done whenever the callbacks stop at most their own alarms. Then every alarm
      registered at the start and not stopped since has run exactly at its deadline then and after
      each interval it asked for, never early and never missed, across any number of clock wraps;
      and every alarm registered at the end has done so since its last start, from the deadline it
      was started for. */
  method Run(s: System, periods: seq<Period>, turns: nat, ghost pool: set<Alarm>)
    returns (done: bool, ghost rounds: seq<Round>)
    requires s.Inv() && s.Known(pool) && forall i :: 0 <= i < |periods| ==> Possible(periods[i], pool)
    modifies s`list, s`journal, s`nticks, s`now, s.head`next, s.head`previous, pool
    ensures s.Known(pool) && s.now == old(s.now) + |rounds|
    ensures Steps(old(s.list), old(s.journal), OpsOf(rounds), s.list, s.journal)
    ensures Chronicle(rounds, s.head, s.tick_rate != 0, turns, old(OriginOf(s)), periods)
    ensures done ==> |rounds| == |periods| && (rounds == [] || Ended(s.head, rounds[|rounds| - 1].trip))
    ensures !done ==> rounds != [] && CutOff(s.head, rounds[|rounds| - 1].trip, turns, |pool|)
    ensures turns >= |pool| && (forall i :: 0 <= i < |periods| ==> Modest(periods[i].plan, pool)) ==> done
    ensures done ==> s.Inv()
    ensures done ==>
      Upheld(old(OriginOf(s)), OpsOf(rounds), s.list, s.journal, Marks(Members(s.list)), s.now, periods)
  {
    hide *;
    ghost var o := OriginOf(s);
    RunStarts(s, pool, turns, o, periods);
    done, rounds := true, [];
    var i := 0;
    while i < |periods|
      invariant 0 <= i == |rounds| <= |periods| && done && s.Inv() && s.Known(pool) && s.now == o.now + i
      invariant Steps(o.list, o.journal, OpsOf(rounds), s.list, s.journal)
      invariant Upheld(o, OpsOf(rounds), s.list, s.journal, Marks(Members(s.list)), s.now, periods)
      invariant Chronicle(rounds, s.head, s.tick_rate != 0, turns, o, periods)
      invariant rounds == [] || Ended(s.head, rounds[|rounds| - 1].trip)
    {
      done, rounds := NextPeriod(s, periods[i], turns, periods, pool, o, rounds);
      if !done {
        return;
      }
      i := i + 1;
    }
  }

  ghost function OriginOf(s: System): Origin
    reads s, Members(s.list)
  {
    Origin(s.list, s.journal, Marks(Members(s.list)), s.now)
  }

  /** The walk is back at the head. */
  ghost predicate Ended(head: Alarm, t: Trip<Alarm>) {
    Even(t) && NextOf(head, t) == head
  }

  /** The walk is not back at the head, because it is stranded or for want of turns. */
  ghost predicate CutOff(head: Alarm, t: Trip<Alarm>, turns: nat, n: nat) {
    Even(t) && NextOf(head, t) != head && (!NeverStranded(head, t) || turns < Bound(|t.was|, n))
  }

  lemma RunStarts(s: System, pool: set<Alarm>, turns: nat, o: Origin, periods: seq<Period>)
    requires s.Inv() && s.Known(pool) && o == OriginOf(s)
    ensures o.list == s.list && o.journal == s.journal && o.now == s.now
    ensures Steps(o.list, o.journal, OpsOf([]), s.list, s.journal)
    ensures Upheld(o, OpsOf([]), s.list, s.journal, Marks(Members(s.list)), s.now, periods)
    ensures Chronicle([], s.head, s.tick_rate != 0, turns, o, periods)
  {
    CurrentNow(s, pool);
    UpheldAtFirst(o, periods);
    NoSteps(s.list, s.journal);
  }

  method NextPeriod(s: System, p: Period, turns: nat, ghost periods: seq<Period>, ghost pool: set<Alarm>,
                    ghost o: Origin, ghost rounds: seq<Round>)
    returns (finished: bool, ghost rounds': seq<Round>)
    requires s.Inv() && s.Known(pool) && |rounds| < |periods| && s.now == o.now + |rounds|
    requires p == periods[|rounds|] && Possible(p, pool) && Steps(o.list, o.journal, OpsOf(rounds), s.list, s.journal)
    requires Upheld(o, OpsOf(rounds), s.list, s.journal, Marks(Members(s.list)), s.now, periods)
    requires Chronicle(rounds, s.head, s.tick_rate != 0, turns, o, periods)
    requires rounds == [] || Ended(s.head, rounds[|rounds| - 1].trip)
    modifies s`list, s`journal, s`nticks, s`now, s.head`next, s.head`previous, pool
    ensures s.now == old(s.now) + 1 && s.Known(pool) && |rounds'| == |rounds| + 1
    ensures Chronicle(rounds', s.head, s.tick_rate != 0, turns, o, periods)
    ensures Steps(o.list, o.journal, OpsOf(rounds'), s.list, s.journal)
    ensures var t := rounds'[|rounds|].trip;
      if finished then Ended(s.head, t) else CutOff(s.head, t, turns, |pool|)
    ensures Modest(p.plan, pool) && turns >= |pool| ==> finished
    ensures finished ==> s.Inv()
    ensures finished ==> Upheld(o, OpsOf(rounds'), s.list, s.journal, Marks(Members(s.list)), s.now, periods)
  {
    hide System.Inv, System.Walking, System.Known, System.Linked, Possible, Steps, Upheld, Chronicle, RoundIs, OpsOf;
    hide Replay, Members, Marks, NextOf, NeverStranded, Bound, Modest, Flat, Even;
    ghost var l1, j1 := s.list, s.journal;
    ghost var r;
    finished, r := OnePeriod(s, p, turns, pool, o, OpsOf(rounds), periods);
    rounds' := rounds + [r];
    OpsOfMore(rounds, r);
    StepsJournal(o.list, o.journal, OpsOf(rounds), l1, j1);
    StepsJoin(o.list, o.journal, OpsOf(rounds), l1, j1, r.before + Flat(r.trip.acts), s.list, s.journal);
    ChronicleGrows(rounds, r, s.head, s.tick_rate != 0, turns, o, periods);
  }

  // ---- the encoding ----

  /** What the invariants say of one registered alarm: its schedule begins where the journal says. */
  lemma RegisteredOnSchedule(s: System, pool: set<Alarm>, a: Alarm)
    requires s.Inv() && s.Known(pool) && a in s.list
    ensures a.hist.ran == Schedule(FirstDue(s.journal, a), s.now, a.hist.replies) && |a.hist.ran| == |a.hist.replies|
    ensures s.now < a.due == FirstDue(s.journal, a) + Sum(a.hist.replies)
  {
  }

  /** A registered alarm that was last started at tick `at` with this delay has run when the timer
      encoding says that it fires, from the start on. */
  lemma RanAsEncoded(s: System, pool: set<Alarm>, a: Alarm, at: nat, delay: u32)
    requires s.Inv() && s.Known(pool) && a in s.list
    requires FirstDue(s.journal, a) == at + delay + 1 && at <= s.now && delay < LONGEST
    ensures a.hist.ran == Log(Arm(delay, U32(at)), at, s.now - at, a.hist.replies)
  {
    hide Represents, Log, Schedule;
    RegisteredOnSchedule(s, pool, a);
    hide System.Walking, System.Known, System.Linked;
    StartedAlarmIsExact(delay, at, s.now - at, a.hist.replies);
  }
}
