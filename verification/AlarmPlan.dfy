/** Which callbacks let a tick end with every alarm visited in turn (alt_tick.c): a condition on the
    list, the deadlines and the callbacks as they are before the tick. */
module AlarmPlan {
  import opened Words
  import opened AlarmClock
  import opened Journal
  import opened Rounds
  import opened AlarmTick

  /** The callback of the i-th alarm stops one that comes after it. */
  ghost predicate StopsLater(l: seq<Alarm>, i: nat, plan: Alarm -> Behaviour)
    requires i < |l|
  {
    exists x :: x in l[i + 1..] && StopIt(x) in plan(l[i]).actions
  }

  /** No callback that is due stops an alarm that comes after its own. It may stop its own, those
      before it, and those that are not in the list, and start any. */
  ghost predicate Backward(l: seq<Alarm>, marks: map<Alarm, Marking>, plan: Alarm -> Behaviour, now: nat)
    requires forall a :: a in l ==> a in marks
  {
    forall i :: 0 <= i < |l| && marks[l[i]].due == now ==> !StopsLater(l, i, plan)
  }

  /** Every callback stops at most its own alarm. */
  ghost predicate Modest(plan: Alarm -> Behaviour, pool: set<Alarm>) {
    forall a, i :: a in pool && 0 <= i < |plan(a).actions| && plan(a).actions[i].StopIt? ==> plan(a).actions[i].a == a
  }

  lemma ModestIsBackward(l: seq<Alarm>, marks: map<Alarm, Marking>, plan: Alarm -> Behaviour, now: nat,
                         pool: set<Alarm>)
    requires Distinct(l) && Modest(plan, pool) && forall a :: a in l ==> a in marks && a in pool
    ensures Backward(l, marks, plan, now)
  {
    forall i | 0 <= i < |l| && marks[l[i]].due == now
      ensures !StopsLater(l, i, plan)
    {
      assert l[i] in pool && l[i] !in l[i + 1..];
    }
  }

  /** The k-th visit left those alone that come after the k-th alarm. */
  ghost predicate SparesLater(t: Trip<Alarm>, k: nat)
    requires k < |t.acts| && k < |t.was|
  {
    forall x :: x in t.was[k + 1..] ==> x !in Stopped(t.acts[k])
  }

  /** Every alarm present at the start was visited once, in order, and none was stopped before its
      turn. */
  ghost predicate EachInTurn(t: Trip<Alarm>)
    requires Even(t)
  {
    t.visited == t.was && forall k :: 0 <= k < |t.acts| ==> SparesLater(t, k)
  }

  /** `ops` can be done on `l`, and of the alarms in `l` they stop those that the actions name. */
  ghost predicate StopsNamed(l: seq<Alarm>, ops: seq<Op<Alarm>>, actions: seq<Action>) {
    && Sound(l, ops)
    && (forall x :: x in Stopped(ops) ==> StopIt(x) in actions)
    && (forall x :: x in l && StopIt(x) in actions ==> x in Stopped(ops))
  }

  lemma {:induction false} DeedsStop(l: seq<Alarm>, current: Alarm, live: bool, now: nat, actions: seq<Action>)
    requires Distinct(l)
    ensures StopsNamed(l, Deeds(l, current, live, now, actions), actions)
    decreases |actions|
  {
    if actions == [] {
      NothingStopped<Alarm>();
    } else {
      var n := |actions| - 1;
      DeedsStop(l, current, live, now, actions[..n]);
      assert actions == actions[..n] + [actions[n]];
      hide StopsNamed, Deed, Sound, Distinct;
      OneMoreDeed(l, Deeds(l, current, live, now, actions[..n]), actions[..n], actions[n], current, live, now);
    }
  }

  lemma OneMoreDeed(l: seq<Alarm>, before: seq<Op<Alarm>>, init: seq<Action>, act: Action, current: Alarm,
                    live: bool, now: nat)
    requires Distinct(l) && StopsNamed(l, before, init)
    ensures StopsNamed(l, before + Deed(Replay(l, before), current, live, now, act), init + [act])
  {
    var deed := Deed(Replay(l, before), current, live, now, act);
    StartedJoin(before, deed);
    ReplaySuffix(l, before, deed);
    DeedSound(Replay(l, before), current, live, now, act);
    hide Deed, Sound, Stopped, Distinct, Replay;
    forall x | x in l && StopIt(x) in init + [act]
      ensures x in Stopped(before + deed)
    {
      if x !in Stopped(before) {
        StaysIn(l, before, x);
      }
    }
  }

  lemma DeedSound(l: seq<Alarm>, current: Alarm, live: bool, now: nat, act: Action)
    ensures var ops := Deed(l, current, live, now, act);
      && Sound(l, ops)
      && (forall x :: x in Stopped(ops) ==> act == StopIt(x))
      && (act.StopIt? && act.a in l ==> act.a in Stopped(ops))
  {
    var ops := Deed(l, current, live, now, act);
    if ops != [] {
      var op := ops[0];
      assert ops == [op] && ops[..0] == [] && Replay(l, ops[..0]) == l;
      assert op.Enter? ==> op.a !in l;
      assert Sound(l, ops[..0]) && Sound(l, ops);
    }
  }

  lemma DoingsStop(l: seq<Alarm>, alarm: Alarm, live: bool, now: nat, b: Behaviour)
    requires Distinct(l)
    ensures var ops := Doings(l, alarm, live, now, b);
      && (forall x :: x in Stopped(ops) ==> x == alarm || StopIt(x) in b.actions)
      && (forall x :: x in l && StopIt(x) in b.actions ==> x in Stopped(ops))
  {
    DeedsStop(l, alarm, live, now, b.actions);
    hide Sound, Deeds, Distinct;
    var last := if b.reply == 0 then [Leave(alarm)] else [];
    StartedJoin(Deeds(l, alarm, live, now, b.actions), last);
    assert last != [] ==> last == [last[0]];
  }

  /** After k visits in turn: the next is the k-th alarm, and it and those after it are the end of
      the list, in their old order. */
  ghost predicate UpTo(head: Alarm, t: Trip<Alarm>, k: nat)
    requires Even(t) && k <= |t.acts|
  {
    && k <= |t.was| && t.visited[..k] == t.was[..k]
    && Distinct(ListAt(t, k)) && Ends(ListAt(t, k), t.was[k..])
    && (forall x :: x in t.was[k..] ==> x !in Stopped(Flat(t.acts[..k])))
    && (if k == 0 then First(t.was, head) else Saved(head, t, k - 1)) == First(t.was[k..], head)
  }

  /** What the record of a tick says about its visits. */
  ghost predicate Taken(head: Alarm, t: Trip<Alarm>, fired: seq<bool>, marks: map<Alarm, Marking>,
                        plan: Alarm -> Behaviour, live: bool, now: nat)
  {
    && Even(t) && |fired| == |t.acts| && (forall a :: a in t.was ==> a in marks)
    && Distinct(t.was) && Sound(t.was, Flat(t.acts)) && head !in t.was && head !in t.visited
    && AllRecorded(head, t, fired, marks, plan, live, now)
  }

  lemma UpToNone(head: Alarm, t: Trip<Alarm>)
    requires Even(t) && Distinct(t.was)
    ensures UpTo(head, t, 0)
  {
    assert t.acts[..0] == [] && t.visited[..0] == t.was[..0] && t.was[0..] == t.was;
  }

  /** The visit after k visits in turn is the k-th alarm's; its callback runs exactly if it is due. */
  lemma KthVisit(head: Alarm, t: Trip<Alarm>, fired: seq<bool>, k: nat, marks: map<Alarm, Marking>,
                 plan: Alarm -> Behaviour, live: bool, now: nat)
    requires Taken(head, t, fired, marks, plan, live, now) && k < |t.acts| && UpTo(head, t, k)
    ensures k < |t.was| && t.visited[k] == t.was[k] && (fired[k] <==> marks[t.was[k]].due == now)
    ensures t.acts[k] == if fired[k] then Doings(ListAt(t, k), t.was[k], live, now, plan(t.was[k])) else []
    ensures SparesLater(t, k) <==> marks[t.was[k]].due == now ==> !StopsLater(t.was, k, plan)
  {
    KthInTurn(head, t, fired, k, marks, plan, live, now);
    hide Doings, Stopped, AllRecorded, RecordedAt, Replay, Flat, Sound, InTurn;
    var a := t.was[k];
    LaterListed(t, k);
    DoingsStop(ListAt(t, k), a, live, now, plan(a));
    assert a !in t.was[k + 1..];
    if !fired[k] {
      NothingStopped<Alarm>();
    }
  }

  lemma KthInTurn(head: Alarm, t: Trip<Alarm>, fired: seq<bool>, k: nat, marks: map<Alarm, Marking>,
                  plan: Alarm -> Behaviour, live: bool, now: nat)
    requires Taken(head, t, fired, marks, plan, live, now) && k < |t.acts| && UpTo(head, t, k)
    ensures k < |t.was| && t.visited[k] == t.was[k] && (fired[k] <==> marks[t.was[k]].due == now)
    ensures t.acts[k] == if fired[k] then Doings(ListAt(t, k), t.was[k], live, now, plan(t.was[k])) else []
  {
    hide Doings, Stopped, Replay, Flat, Sound, Ends, Saved, ListAt;
    assert RecordedAt(head, t, fired, k, marks, plan, live, now);
    assert t.visited[k] in t.visited;
    assert t.was[k..] != [];
    var a := t.was[k];
    assert t.was[k..][0] == a && a in t.was[k..];
    assert a !in t.was[..k];
    assert InTurn(t, k);
  }

  lemma NothingStopped<T>()
    ensures Stopped<T>([]) == {}
  {
  }

  lemma LaterListed(t: Trip<Alarm>, k: nat)
    requires k < |t.acts| && k < |t.was| && Ends(ListAt(t, k), t.was[k..])
    ensures forall x :: x in t.was[k + 1..] ==> x in ListAt(t, k)
  {
    var list := ListAt(t, k);
    forall x | x in t.was[k + 1..] ensures x in list {
      assert t.was[k + 1..] == t.was[k..][1..];
      assert x in list[|list| - |t.was[k..]|..];
    }
  }

  lemma UpToNext(head: Alarm, t: Trip<Alarm>, fired: seq<bool>, k: nat, marks: map<Alarm, Marking>,
                 plan: Alarm -> Behaviour, live: bool, now: nat)
    requires Taken(head, t, fired, marks, plan, live, now) && k < |t.acts| && UpTo(head, t, k)
    requires k < |t.was| && SparesLater(t, k)
    ensures UpTo(head, t, k + 1)
  {
    hide AllRecorded, Doings, StopsLater, Distinct, Ends, Stopped, Flat, ListAt, Sound;
    KthVisit(head, t, fired, k, marks, plan, live, now);
    var a, rest := t.was[k], t.was[k + 1..];
    assert t.was[k..] == [a] + rest;
    assert t.visited[..k + 1] == t.visited[..k] + [t.visited[k]] && t.was[..k + 1] == t.was[..k] + [t.was[k]];
    ListAtNext(t, k);
    StartedJoin(Flat(t.acts[..k]), t.acts[k]);
    EndMoves(head, ListAt(t, k), a, rest, t.acts[k]);
    forall x | x in rest
      ensures x !in Stopped(Flat(t.acts[..k + 1]))
    {
      assert x in t.was[k..];
    }
  }

  /** A visit to `a` at the front of the end of the list, sparing the rest of it. */
  lemma EndMoves(head: Alarm, list: seq<Alarm>, a: Alarm, rest: seq<Alarm>, ops: seq<Op<Alarm>>)
    requires Distinct(list) && Ends(list, [a] + rest) && Sound(list, ops)
    requires forall x :: x in rest ==> x !in Stopped(ops)
    ensures Distinct(Replay(list, ops)) && Ends(Replay(list, ops), rest)
    ensures NextIn(head, list, a) == First(rest, head)
  {
    assert ([a] + rest)[1..] == rest;
    hide Ends, Distinct, Stopped, Sound, Replay, NextIn, Survivors;
    NextOfTail(head, list, [a] + rest);
    EndsReplay(list, [a] + rest, ops);
    SurvivorsJoin([a], rest, Stopped(ops));
    TailEnds(Replay(list, ops), Survivors([a], Stopped(ops)), Survivors(rest, Stopped(ops)));
    SurvivorsSame(rest, Stopped(ops), {});
    SurvivorsOfNone(rest);
    ReplaySplits(list, ops);
  }

  lemma ListAtNext(t: Trip<Alarm>, k: nat)
    requires k < |t.acts| && Sound(t.was, Flat(t.acts))
    ensures ListAt(t, k + 1) == Replay(ListAt(t, k), t.acts[k])
    ensures Flat(t.acts[..k + 1]) == Flat(t.acts[..k]) + t.acts[k]
    ensures Sound(ListAt(t, k), t.acts[k])
  {
    hide Flat, Sound, Replay;
    var upto, after := t.acts[..k + 1], t.acts[k + 1..];
    assert upto[..k] == t.acts[..k] && t.acts == upto + after;
    assert upto == t.acts[..k] + [t.acts[k]];
    FlatGrows(t.acts[..k], t.acts[k]);
    FlatJoin(upto, after);
    ReplaySuffix(t.was, Flat(upto), Flat(after));
    ReplaySuffix(t.was, Flat(t.acts[..k]), t.acts[k]);
  }

  lemma {:induction false} FlatJoin(x: seq<seq<Op<Alarm>>>, y: seq<seq<Op<Alarm>>>)
    ensures Flat(x + y) == Flat(x) + Flat(y)
    decreases |y|
  {
    if y == [] {
      assert x + y == x;
    } else {
      var n := |y| - 1;
      assert (x + y)[..|x + y| - 1] == x + y[..n];
      FlatJoin(x, y[..n]);
    }
  }

  /** Visits that spare those still to come are in turn. */
  lemma {:induction false} UpToAll(head: Alarm, t: Trip<Alarm>, fired: seq<bool>, k: nat, marks: map<Alarm, Marking>,
                                   plan: Alarm -> Behaviour, live: bool, now: nat)
    requires Taken(head, t, fired, marks, plan, live, now) && k <= |t.acts|
    requires EachInTurn(t) ||
      forall j :: 0 <= j < k && j < |t.was| && marks[t.was[j]].due == now ==> !StopsLater(t.was, j, plan)
    ensures UpTo(head, t, k)
    ensures forall j :: 0 <= j < k ==> SparesLater(t, j)
    decreases k
  {
    if k == 0 {
      UpToNone(head, t);
    } else {
      UpToAll(head, t, fired, k - 1, marks, plan, live, now);
      KthVisit(head, t, fired, k - 1, marks, plan, live, now);
      hide UpTo, AllRecorded, Doings, StopsLater, SparesLater;
      UpToNext(head, t, fired, k - 1, marks, plan, live, now);
    }
  }

  /** The walk is back at the head, within so many turns, or it has been cut off after them. */
  ghost predicate Within(head: Alarm, t: Trip<Alarm>, turns: nat)
    requires Even(t)
  {
    |t.visited| <= turns && (NextOf(head, t) == head || |t.visited| == turns)
  }

  lemma TakenInTurnIff(head: Alarm, t: Trip<Alarm>, fired: seq<bool>, marks: map<Alarm, Marking>,
                       plan: Alarm -> Behaviour, live: bool, now: nat, turns: nat)
    requires Taken(head, t, fired, marks, plan, live, now) && Within(head, t, turns) && turns >= |t.was|
    ensures NextOf(head, t) == head && EachInTurn(t) <==> Backward(t.was, marks, plan, now)
  {
    if Backward(t.was, marks, plan, now) || EachInTurn(t) {
      hide AllRecorded, StopsLater, SparesLater;
      UpToAll(head, t, fired, |t.acts|, marks, plan, live, now);
      EndOfTurns(head, t);
      if EachInTurn(t) {
        forall i | 0 <= i < |t.was| && marks[t.was[i]].due == now
          ensures !StopsLater(t.was, i, plan)
        {
          UpToAll(head, t, fired, i, marks, plan, live, now);
          KthVisit(head, t, fired, i, marks, plan, live, now);
        }
      }
    }
  }

  /** The tick routine ends, having visited every alarm once, in order, and none stopped before its
      turn, if and only if no callback that is due stops an alarm that comes after its own. */
  lemma EachInTurnIff(s: System, finished: bool, t: Trip<Alarm>, fired: seq<bool>, marks: map<Alarm, Marking>,
                      plan: Alarm -> Behaviour, turns: nat, pool: set<Alarm>)
    requires s.Outcome(finished, t, fired, marks, plan, turns, pool) && turns >= |t.was|
    ensures finished && EachInTurn(t) <==> Backward(t.was, marks, plan, s.now)
  {
    OutcomeTaken(s, finished, t, fired, marks, plan, turns, pool);
    hide System.Outcome, Taken, Backward, EachInTurn, NextOf, Within;
    TakenInTurnIff(s.head, t, fired, marks, plan, s.tick_rate != 0, s.now, turns);
  }

  lemma OutcomeTaken(s: System, finished: bool, t: Trip<Alarm>, fired: seq<bool>, marks: map<Alarm, Marking>,
                     plan: Alarm -> Behaviour, turns: nat, pool: set<Alarm>)
    requires s.Outcome(finished, t, fired, marks, plan, turns, pool)
    ensures Taken(s.head, t, fired, marks, plan, s.tick_rate != 0, s.now)
    ensures (finished <==> NextOf(s.head, t) == s.head) && Within(s.head, t, turns)
  {
  }

  /** After all visits, in turn: back at the head if there were as many as alarms, and only then. */
  lemma EndOfTurns(head: Alarm, t: Trip<Alarm>)
    requires Even(t) && UpTo(head, t, |t.acts|) && head !in t.was
    ensures NextOf(head, t) == head <==> |t.visited| == |t.was|
    ensures |t.visited| == |t.was| ==> t.visited == t.was
  {
    var n := |t.acts|;
    assert t.visited[..n] == t.visited;
    if n < |t.was| {
      assert t.was[n..][0] == t.was[n];
    } else {
      assert t.was[n..] == [] && t.was[..n] == t.was;
    }
  }

  // ---- the failing input ----

  lemma DoingsOfStop(a: Alarm, b: Alarm, live: bool, now: nat)
    requires a != b
    ensures Doings([a, b], a, live, now, Behaviour([StopIt(b)], 1)) == [Leave(b)]
    ensures Replay([a, b], [Leave(b)]) == [a]
  {
    var acts := [StopIt(b)];
    assert acts[..0] == [] && acts[0] == StopIt(b);
    assert Deeds([a, b], a, live, now, []) == [];
    assert Replay([a, b], []) == [a, b];
    assert Deeds([a, b], a, live, now, acts) == [] + Deed([a, b], a, live, now, StopIt(b));
    var ops: seq<Op<Alarm>> := [Leave(b)];
    assert ops[..0] == [];
    assert [a, b][1..] == [b] && [b][1..] == [];
    assert Without([b], b) == [];
  }

  /** If the alarms before the i-th stop none that come later, and the i-th is due and its callback
      leaves its successor out of the list, the tick routine does not end. */
  lemma StopsNext(s: System, finished: bool, t: Trip<Alarm>, fired: seq<bool>, marks: map<Alarm, Marking>,
                  plan: Alarm -> Behaviour, turns: nat, pool: set<Alarm>, i: nat)
    requires s.Outcome(finished, t, fired, marks, plan, turns, pool)
    requires i + 1 < |t.was| && marks[t.was[i]].due == s.now
    requires forall j :: 0 <= j < i && marks[t.was[j]].due == s.now ==> !StopsLater(t.was, j, plan)
    requires i < |t.acts| ==>
      var l := ListAt(t, i);
      t.was[i + 1] !in Replay(l, Doings(l, t.was[i], s.tick_rate != 0, s.now, plan(t.was[i])))
    ensures !finished
  {
    var n, live := |t.acts|, s.tick_rate != 0;
    OutcomeTaken(s, finished, t, fired, marks, plan, turns, pool);
    hide System.Outcome, AllRecorded, StopsLater, SparesLater, Doings;
    if n <= i {
      UpToAll(s.head, t, fired, n, marks, plan, live, s.now);
      EndOfTurns(s.head, t);
    } else {
      UpToAll(s.head, t, fired, i, marks, plan, live, s.now);
      KthVisit(s.head, t, fired, i, marks, plan, live, s.now);
      LeftOut(s.head, t, i);
      OutcomeEnds(s, finished, t, fired, marks, plan, turns, pool);
    }
  }

  lemma LeftOut(head: Alarm, t: Trip<Alarm>, i: nat)
    requires Even(t) && i < |t.acts| && i + 1 < |t.was| && UpTo(head, t, i) && t.visited[i] == t.was[i]
    requires head !in t.was && Sound(t.was, Flat(t.acts)) && t.was[i + 1] !in Replay(ListAt(t, i), t.acts[i])
    ensures !NeverStranded(head, t)
  {
    var rest := t.was[i..];
    assert rest[0] == t.was[i] && rest[1..][0] == t.was[i + 1];
    NextOfTail(head, ListAt(t, i), rest);
    ListAtNext(t, i);
    assert StrandedAt(head, t, i);
  }

  lemma OutcomeEnds(s: System, finished: bool, t: Trip<Alarm>, fired: seq<bool>, marks: map<Alarm, Marking>,
                    plan: Alarm -> Behaviour, turns: nat, pool: set<Alarm>)
    requires s.Outcome(finished, t, fired, marks, plan, turns, pool)
    ensures Even(t) && (finished ==> NeverStranded(s.head, t))
  {
  }

  /** In particular if the first alarm is due and its callback takes out the second and does not put
      it back. */
  lemma FirstStopsSecond(s: System, finished: bool, t: Trip<Alarm>, fired: seq<bool>, marks: map<Alarm, Marking>,
                         plan: Alarm -> Behaviour, turns: nat, pool: set<Alarm>)
    requires s.Outcome(finished, t, fired, marks, plan, turns, pool)
    requires |t.was| >= 2 && marks[t.was[0]].due == s.now
    requires t.was[1] !in Replay(t.was, Doings(t.was, t.was[0], s.tick_rate != 0, s.now, plan(t.was[0])))
    ensures !finished
  {
    assert t.acts[..0] == [] && ListAt(t, 0) == t.was;
    hide System.Outcome, Doings;
    StopsNext(s, finished, t, fired, marks, plan, turns, pool, 0);
  }

  lemma TwoJournaled(a: Alarm, b: Alarm, due: nat)
    requires a != b
    ensures Journaled([a, b], [Enter(b, due), Enter(a, due)])
    ensures FirstDue([Enter(b, due), Enter(a, due)], a) == FirstDue([Enter(b, due), Enter(a, due)], b) == due
  {
    var first, second := [Enter(b, due)], [Enter(a, due)];
    assert first[..0] == [] && second[..0] == [] && first + second == [Enter(b, due), Enter(a, due)];
    FirstDueNext(first, Enter(a, due), a);
    FirstDueNext(first, Enter(a, due), b);
    assert Replay([], first) == [b] && Sound([], first);
    assert Replay([b], second) == [a, b] && Sound([b], second);
    ReplaySuffix([], first, second);
  }

  /** Two alarms, started one after the other with no delay. */
  method TwoDue() returns (s: System, a: Alarm, b: Alarm)
    ensures fresh(s) && fresh(s.head) && fresh(a) && fresh(b) && a != b
    ensures s.Inv() && s.Known({a, b}) && s.list == [a, b] && a.due == s.now + 1
  {
    s := new System();
    a := new Alarm();
    b := new Alarm();
    s.tick_rate := 1;
    StartBoth(s, a, b);
    TwoKnown(s, a, b);
  }

  method StartBoth(s: System, a: Alarm, b: Alarm)
    requires s.Linked() && s.list == [] && s.journal == [] && s.nticks == 0 == s.now && s.tick_rate == 1
    requires a != b && a != s.head && b != s.head
    modifies s`list, s`journal, s.head`next, s.head`previous, a, b
    ensures s.Inv() && s.list == [a, b] && s.journal == [Enter(b, 1), Enter(a, 1)]
    ensures a.due == s.now + 1 && a.hist.base == b.hist.base == 1
  {
    hide System.Linked, Alarm.On;
    var rc := s.Start(b, 0);
    assert s.journal == [Enter(b, 1)] && s.list == [b];
    rc := s.Start(a, 0);
    assert s.journal == [Enter(b, 1), Enter(a, 1)] && s.list == [a, b];
  }

  lemma TwoKnown(s: System, a: Alarm, b: Alarm)
    requires a != b && s.head != a && s.head != b && s.list == [a, b] && s.journal == [Enter(b, 1), Enter(a, 1)]
    requires a.hist.base == b.hist.base == 1
    ensures s.Known({a, b})
  {
    TwoJournaled(a, b, 1);
    hide Journaled;
  }

  lemma PlanOfStop(plan: Alarm -> Behaviour, a: Alarm, b: Alarm)
    requires plan(a) == Behaviour([StopIt(b)], 1) && plan(b) == Behaviour([], 1)
    ensures Planned(plan, {a, b})
  {
  }

  lemma DueOf(s: System, a: Alarm)
    requires a in s.list
    ensures a in Marks(Members(s.list)) && Marks(Members(s.list))[a].due == a.due
  {
  }

  /** With both due at the next tick and the callback of the first stopping the second, the tick
      routine never gets back to the head of the list, however long it goes on. */
  method StopTheNext(turns: nat) returns (finished: bool)
    ensures !finished
  {
    hide System.Inv, System.Walking, System.Known, System.Linked, System.Outcome, Planned, Marks, Members, Doings;
    hide Steps, Flat, Replay;
    var s, a, b := TwoDue();
    var plan := (x: Alarm) => Behaviour(if x == a then [StopIt(b)] else [], 1);
    ghost var pool, marks := {a, b}, Marks(Members(s.list));
    PlanOfStop(plan, a, b);
    DueOf(s, a);
    ghost var t, fired;
    finished, t, fired := s.Tick(plan, turns, pool);
    DoingsOfStop(a, b, s.tick_rate != 0, s.now);
    FirstStopsSecond(s, finished, t, fired, marks, plan, turns, pool);
  }

  // ---- the longest delay ----

  lemma FirstTest(delay: u32, now: nat)
    ensures Fires(Arm(delay, U32(now)), U32(now + 1)) <==> delay == 0 || (delay == LONGEST && U32(now) != LONGEST)
  {
    if delay < LONGEST {
      ArmRepresents(delay, now);
      hide Arm, Fires, Represents;
      TickIsExact(Arm(delay, U32(now)), now, now + delay + 1);
    } else {
      var clock := U32(now);
      assert Arm(LONGEST, clock) == Timer(clock, false);
      assert U32(now + 1) == if clock == LONGEST then 0 else clock + 1;
    }
  }

  /** An alarm is started, with any delay, and the next tick comes: its loop reads the new alarm
      first, and its callback runs exactly if the delay is zero, or the longest and the clock is not
      about to wrap. So it runs exactly at its deadline, delay + 1 ticks after the start, but for
      the longest delay. */
  method StartThenTick(s: System, a: Alarm, delay: u32, b: Behaviour, ghost pool: set<Alarm>) returns (ran: bool)
    requires s.Inv() && s.Known(pool) && s.tick_rate != 0
    requires a in pool && a !in s.list && Permitted(b.actions, pool)
    modifies s`list, s`journal, s`nticks, s`now, s.head`next, s.head`previous, pool
    ensures s.now == old(s.now) + 1
    ensures ran <==> delay == 0 || (delay == LONGEST && U32(old(s.now)) != LONGEST)
    ensures (ran <==> s.now == old(s.now) + delay + 1) <==> delay < LONGEST || U32(old(s.now)) == LONGEST
  {
    FirstTest(delay, s.now);
    hide *;
    var alarm := StartThenCount(s, a, delay, pool);
    ghost var ops;
    ran, ops := s.Visit(alarm, b, Members(s.list) - {a}, false, pool);
  }

  method StartThenCount(s: System, a: Alarm, delay: u32, ghost pool: set<Alarm>) returns (first: Alarm)
    requires s.Inv() && s.Known(pool) && s.tick_rate != 0 && a in pool && a !in s.list
    modifies s`list, s`journal, s`nticks, s`now, s.head`next, s.head`previous, pool
    ensures s.Walking(Members(s.list) - {a}, a) && s.Known(pool) && first == a && a in s.list
    ensures a !in Members(s.list) - {a} && Members(s.list) - {a} <= pool && s.now == old(s.now) + 1
    ensures Timer(a.time, a.rollover) == Arm(delay, U32(old(s.now))) && s.nticks == U32(s.now)
  {
    s.NodesKnown(pool);
    hide System.Linked, Alarm.On, Arm, Sound, Journaled, Alarm.Idle, System.Dated, Started;
    s.StartKnown(a, delay, pool);
    s.Advance(a, pool);
    s.FirstEntry();
    first := s.head.next;
  }
}
