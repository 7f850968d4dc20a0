/** The registered alarms: an intrusive circular doubly linked list and the tick routine that
    walks it while callbacks start, stop and re-arm alarms
    (alt_llist.h, alt_alarm_start.c, alt_tick.c). */
module AlarmTick {
  import opened Words
  import opened AlarmClock
  import opened Journal
  import opened Rounds

  const EINVAL: int := 22
  const ENOTSUP: int := 134

  /** All of an alarm but its links. */
  datatype Marking = Marking(time: u32, rollover: bool, due: nat, hist: History)

  /** On schedule, and the deadline is now. */
  ghost predicate Reached(m: Marking, now: nat) {
    now > 0 && m.due == now && m.time == U32(now) && !m.rollover && Kept(m.hist, now - 1, now)
  }

  /** The callback has run and replied. */
  ghost predicate Replied(before: Marking, after: Marking, now: nat, reply: u32) {
    after.due == before.due + reply && after.hist == before.hist.Ran(now, reply)
  }

  class Alarm {
    var next: Alarm?
    var previous: Alarm?
    var time: u32
    var rollover: bool
    ghost var due: nat       // the absolute tick the fields stand for
    ghost var hist: History  // what has happened since the alarm was started

    constructor ()
      ensures next == null && previous == null
    {
      next, previous, time, rollover, due, hist := null, null, 0, false, 0, History(0, [], []);
    }

    /** Re-arming by the callback's reply. For an alarm on schedule that has just reached its
        deadline, the next one is `reply` ticks later. */
    method Repeat(reply: u32, clock: u32, ghost now: nat, ghost exact: bool)
      requires reply > 0 && clock == U32(now) && now > 0
      requires exact ==> due == now && time == clock && !rollover && Kept(hist, now - 1, due)
      modifies this`time, this`rollover, this`due, this`hist
      ensures due == old(due) + reply && hist == old(hist).Ran(now, reply)
      ensures exact ==> On(now)
    {
      if exact {
        RearmRepresents(now, reply);
        KeptRuns(hist, now - 1, reply);
      }
      ghost var t, first := Timer(time, rollover), due;
      hide Kept, Represents;
      time := U32(time + reply);
      if time < clock {
        rollover := true;
      }
      due := due + reply;
      hist := hist.Ran(now, reply);
      assert Timer(time, rollover) == Rearm(t, reply, clock);
    }

    ghost predicate Idle()
      reads this`next, this`previous
    {
      next == this && previous == this
    }

    ghost function Mark(): Marking
      reads this`time, this`rollover, this`due, this`hist
    {
      Marking(time, rollover, due, hist)
    }

    /** The fields encode the deadline, and all callbacks so far came on schedule. */
    ghost predicate On(at: nat)
      reads this`time, this`rollover, this`due, this`hist
    {
      Represents(Timer(time, rollover), at, due) && Kept(hist, at, due)
    }
  }

  /** What code on the board may do to the alarms: start one that is not registered, stop one that
      is. */
  datatype Action = StartIt(a: Alarm, delay: u32) | StopIt(a: Alarm)

  /** A callback: what it does, then what it replies. */
  datatype Behaviour = Behaviour(actions: seq<Action>, reply: u32)

  ghost predicate Permitted(actions: seq<Action>, pool: set<Alarm>) {
    forall i :: 0 <= i < |actions| ==>
      actions[i].a in pool && (actions[i].StartIt? ==> actions[i].delay < LONGEST)
  }

  ghost predicate Planned(plan: Alarm -> Behaviour, pool: set<Alarm>) {
    forall a :: a in pool ==> Permitted(plan(a).actions, pool)
  }

  /** The list operation of one action; a callback does not start its own alarm. */
  ghost function Deed(list: seq<Alarm>, current: Alarm, live: bool, now: nat, act: Action): seq<Op<Alarm>> {
    match act
    case StartIt(a, delay) => if live && a !in list && a != current then [Enter(a, now + delay + 1)] else []
    case StopIt(a) => if a in list then [Leave(a)] else []
  }

  ghost function Deeds(list: seq<Alarm>, current: Alarm, live: bool, now: nat, actions: seq<Action>): seq<Op<Alarm>> {
    if actions == [] then []
    else
      var before := Deeds(list, current, live, now, actions[..|actions| - 1]);
      before + Deed(Replay(list, before), current, live, now, actions[|actions| - 1])
  }

  /** The list operations of a callback and of the tick routine's answer to its reply. */
  ghost function Doings(list: seq<Alarm>, alarm: Alarm, live: bool, now: nat, b: Behaviour): seq<Op<Alarm>> {
    Deeds(list, alarm, live, now, b.actions) + if b.reply == 0 then [Leave(alarm)] else []
  }

  /** Neighbours in `c` are linked both ways. */
  ghost predicate Chained(c: seq<Alarm>)
    reads (set a | a in c)`next, (set a | a in c)`previous
  {
    forall i, j :: 0 <= i && j == i + 1 && j < |c| ==> c[i].next == c[j] && c[j].previous == c[i]
  }

  /** The first and last place of `c` may be one alarm; otherwise all places differ. */
  ghost predicate Circle(c: seq<Alarm>) {
    forall i, j :: 0 <= i < j < |c| && (i > 0 || j < |c| - 1) ==> c[i] != c[j]
  }

  /** The links of `c` are the links along `c`, except at the member to be taken out and,
      on the side facing it, at its neighbours. */
  ghost predicate ChainedBut(c: seq<Alarm>, i: nat)
    requires i + 2 < |c|
    reads (set a | a in c)`next, (set a | a in c)`previous
  {
    forall k, j :: 0 <= k && j == k + 1 && j < |c| && c[k] != c[i + 1] && c[j] != c[i + 1] ==>
      (c[k] != c[i] ==> c[k].next == c[j]) && (c[j] != c[i + 2] ==> c[j].previous == c[k])
  }

  /** What a tick does to an alarm that was `m` at entry: its callback runs exactly at the deadline,
      and its reply sets the next one. */
  ghost predicate Ticked(m: Marking, m': Marking, now: nat, reply: u32) {
    if m.due == now then Replied(m, m', now, reply) else m'.due == m.due && m'.hist == m.hist
  }

  /** With alarms as in `cur`: every alarm of the old list that has not been stopped is as at entry
      while it is pending, and ticked afterwards. */
  ghost predicate Accounts(t: Trip<Alarm>, cur: map<Alarm, Marking>, marks: map<Alarm, Marking>,
                           plan: Alarm -> Behaviour, now: nat)
  {
    && cur.Keys == marks.Keys && (forall a :: a in t.was ==> a in marks)
    && forall a :: a in t.was && a !in Stopped(Flat(t.acts)) ==>
         if a in Pending(t) then cur[a] == marks[a] else Ticked(marks[a], cur[a], now, plan(a).reply)
  }

  ghost function Members(l: seq<Alarm>): set<Alarm> { set a | a in l }

  ghost function Marks(alarms: set<Alarm>): map<Alarm, Marking>
    reads alarms
  {
    map a | a in alarms :: a.Mark()
  }

  /** What one visit does to the alarms. */
  ghost predicate Visited(cursor: Alarm, ran: bool, listed: bool, pending: bool, ops: seq<Op<Alarm>>,
                          cur: map<Alarm, Marking>, cur': map<Alarm, Marking>, reply: u32, now: nat)
  {
    && cur'.Keys == cur.Keys
    && (forall a :: a in cur && a != cursor && a !in Started(ops) ==> cur'[a] == cur[a])
    && (cursor in cur ==>
          && (if ran then Replied(cur[cursor], cur'[cursor], now, reply)
              else cur'[cursor].due == cur[cursor].due && cur'[cursor].hist == cur[cursor].hist)
          && (listed ==> (ran <==> cur[cursor].due == now))
          && (listed && !pending ==> !ran))
  }

  /** An alarm of the old list that has not been stopped is still registered, and pending unless it
      has had its visit. */
  lemma NotStopped(t: Trip<Alarm>, a: Alarm)
    requires Distinct(t.was) && Sound(t.was, Flat(t.acts)) && a in t.was && a !in Stopped(Flat(t.acts))
    ensures Even(t) ==> a in ListNow(t)
    ensures a in Pending(t) <==> a !in t.visited
  {
    StaysIn(t.was, Flat(t.acts), a);
    assert t.acts[..|t.acts|] == t.acts;
  }

  lemma AccountsGrow(t: Trip<Alarm>, cursor: Alarm, ran: bool, ops: seq<Op<Alarm>>, cur: map<Alarm, Marking>,
                     cur': map<Alarm, Marking>, marks: map<Alarm, Marking>, plan: Alarm -> Behaviour, now: nat)
    requires Even(t) && Accounts(t, cur, marks, plan, now) && Distinct(t.was) && Sound(t.was, Flat(t.acts) + ops)
    requires Visited(cursor, ran, cursor in ListNow(t), cursor in Pending(t), ops, cur, cur', plan(cursor).reply, now)
    ensures Accounts(Grown(t, cursor, ops), cur', marks, plan, now)
  {
    var t' := Grown(t, cursor, ops);
    FlatGrows(t.acts, ops);
    StartedJoin(Flat(t.acts), ops);
    ReplaySuffix(t.was, Flat(t.acts), ops);
    forall a | a in t.was && a !in Stopped(Flat(t'.acts))
      ensures if a in Pending(t') then cur'[a] == marks[a] else Ticked(marks[a], cur'[a], now, plan(a).reply)
    {
      NotStopped(t, a);
      NotStopped(t', a);
      StaysIn(t.was, Flat(t'.acts), a);
    }
  }

  /** The k-th visit was the first to an alarm not stopped before. */
  ghost predicate InTurn(t: Trip<Alarm>, k: nat)
    requires Even(t) && k < |t.acts|
  {
    t.visited[k] in t.was && t.visited[k] !in t.visited[..k] && t.visited[k] !in Stopped(Flat(t.acts[..k]))
  }

  /** The k-th visit: to the successor saved before; what it did was its callback's doing; and the
      callback ran exactly if its deadline was now. */
  ghost predicate RecordedAt(head: Alarm, t: Trip<Alarm>, fired: seq<bool>, k: nat,
                             marks: map<Alarm, Marking>, plan: Alarm -> Behaviour, live: bool, now: nat)
    requires Even(t) && k < |t.acts| && |fired| == |t.acts| && forall a :: a in t.was ==> a in marks
  {
    && t.visited[k] == (if k == 0 then First(t.was, head) else Saved(head, t, k - 1))
    && t.acts[k] == (if fired[k] then Doings(ListAt(t, k), t.visited[k], live, now, plan(t.visited[k])) else [])
    && (InTurn(t, k) ==> (fired[k] <==> marks[t.visited[k]].due == now))
  }

  /** Where the walk goes next. */
  ghost function NextOf(head: Alarm, t: Trip<Alarm>): Alarm
    requires Even(t)
  {
    if t.acts == [] then First(t.was, head) else Saved(head, t, |t.acts| - 1)
  }

  lemma RecordedBefore(head: Alarm, t: Trip<Alarm>, fired: seq<bool>, k: nat, marks: map<Alarm, Marking>,
                       plan: Alarm -> Behaviour, live: bool, now: nat, c: Alarm, ran: bool, ops: seq<Op<Alarm>>)
    requires Even(t) && k < |t.acts| && |fired| == |t.acts| && forall a :: a in t.was ==> a in marks
    requires RecordedAt(head, t, fired, k, marks, plan, live, now)
    ensures RecordedAt(head, Grown(t, c, ops), fired + [ran], k, marks, plan, live, now)
  {
    var t' := Grown(t, c, ops);
    assert t'.acts[..k] == t.acts[..k] && t'.visited[..k] == t.visited[..k];
    if k > 0 {
      assert t'.acts[..k - 1] == t.acts[..k - 1];
    }
  }

  lemma RecordedNow(head: Alarm, t: Trip<Alarm>, fired: seq<bool>, marks: map<Alarm, Marking>,
                    plan: Alarm -> Behaviour, live: bool, now: nat, ran: bool, ops: seq<Op<Alarm>>,
                    cur: map<Alarm, Marking>, cur': map<Alarm, Marking>)
    requires Even(t) && |fired| == |t.acts| && Accounts(t, cur, marks, plan, now)
    requires Distinct(t.was) && Sound(t.was, Flat(t.acts))
    requires ops == if ran then Doings(ListNow(t), NextOf(head, t), live, now, plan(NextOf(head, t))) else []
    requires var c := NextOf(head, t);
      Visited(c, ran, c in ListNow(t), c in Pending(t), ops, cur, cur', plan(c).reply, now)
    ensures var t' := Grown(t, NextOf(head, t), ops);
      && RecordedAt(head, t', fired + [ran], |t.acts|, marks, plan, live, now)
      && NextOf(head, t') == NextIn(head, ListNow(t), NextOf(head, t))
  {
    var c, k := NextOf(head, t), |t.acts|;
    var t' := Grown(t, c, ops);
    GrownNow(head, t, c, ops);
    SavedBefore(head, t, c, ops);
    InTurnNow(t, c, ops, marks, cur, plan, now);
    hide Accounts, Visited, Doings, ListNow, ListAt, Saved, NextIn, InTurn, Pending, Sound, Distinct, Flat;
  }

  /** The last visit of the grown walk, if it was in turn, was to an alarm still as at entry. */
  lemma InTurnNow(t: Trip<Alarm>, c: Alarm, ops: seq<Op<Alarm>>, marks: map<Alarm, Marking>,
                  cur: map<Alarm, Marking>, plan: Alarm -> Behaviour, now: nat)
    requires Even(t) && Accounts(t, cur, marks, plan, now) && Distinct(t.was) && Sound(t.was, Flat(t.acts))
    ensures InTurn(Grown(t, c, ops), |t.acts|) ==>
      c in t.was && c in ListNow(t) && c in marks && c in cur && cur[c] == marks[c]
  {
    var t', k := Grown(t, c, ops), |t.acts|;
    assert t'.acts[..k] == t.acts && t'.visited[..k] == t.visited;
    if InTurn(t', k) {
      NotStopped(t, c);
    }
  }

  lemma SavedBefore(head: Alarm, t: Trip<Alarm>, c: Alarm, ops: seq<Op<Alarm>>)
    requires Even(t)
    ensures |t.acts| > 0 ==> Saved(head, Grown(t, c, ops), |t.acts| - 1) == Saved(head, t, |t.acts| - 1)
  {
    var t', k := Grown(t, c, ops), |t.acts|;
    if k > 0 {
      assert t'.acts[..k - 1] == t.acts[..k - 1];
    }
  }

  /** The record of the walk so far, with the list and journal as they are now. */
  ghost predicate Recorded(head: Alarm, t: Trip<Alarm>, fired: seq<bool>, cursor: Alarm, marks: map<Alarm, Marking>,
                           plan: Alarm -> Behaviour, live: bool, now: nat,
                           j0: seq<Op<Alarm>>, list: seq<Alarm>, journal: seq<Op<Alarm>>)
    requires Even(t)
  {
    && Distinct(t.was) && marks.Keys == Members(t.was) && |fired| == |t.acts|
    && cursor == NextOf(head, t) && list == ListNow(t)
    && Steps(t.was, j0, Flat(t.acts), list, journal)
    && AllRecorded(head, t, fired, marks, plan, live, now)
  }

  ghost predicate AllRecorded(head: Alarm, t: Trip<Alarm>, fired: seq<bool>, marks: map<Alarm, Marking>,
                              plan: Alarm -> Behaviour, live: bool, now: nat)
    requires Even(t) && |fired| == |t.acts| && forall a :: a in t.was ==> a in marks
  {
    forall k :: 0 <= k < |t.acts| ==> RecordedAt(head, t, fired, k, marks, plan, live, now)
  }

  lemma AllRecordedGrows(head: Alarm, t: Trip<Alarm>, fired: seq<bool>, marks: map<Alarm, Marking>,
                         plan: Alarm -> Behaviour, live: bool, now: nat, c: Alarm, ran: bool, ops: seq<Op<Alarm>>)
    requires Even(t) && |fired| == |t.acts| && forall a :: a in t.was ==> a in marks
    requires AllRecorded(head, t, fired, marks, plan, live, now)
    requires RecordedAt(head, Grown(t, c, ops), fired + [ran], |t.acts|, marks, plan, live, now)
    ensures AllRecorded(head, Grown(t, c, ops), fired + [ran], marks, plan, live, now)
  {
    hide RecordedAt;
    var t' := Grown(t, c, ops);
    forall k | 0 <= k < |t'.acts|
      ensures RecordedAt(head, t', fired + [ran], k, marks, plan, live, now)
    {
      if k < |t.acts| {
        RecordedBefore(head, t, fired, k, marks, plan, live, now, c, ran, ops);
      }
    }
  }

  lemma RecordedGrows(head: Alarm, t: Trip<Alarm>, fired: seq<bool>, cursor: Alarm, marks: map<Alarm, Marking>,
                      plan: Alarm -> Behaviour, live: bool, now: nat,
                      j0: seq<Op<Alarm>>, l1: seq<Alarm>, j1: seq<Op<Alarm>>,
                      ran: bool, ops: seq<Op<Alarm>>, cur: map<Alarm, Marking>, cur': map<Alarm, Marking>,
                      l2: seq<Alarm>, j2: seq<Op<Alarm>>)
    requires Even(t) && Recorded(head, t, fired, cursor, marks, plan, live, now, j0, l1, j1)
    requires Accounts(t, cur, marks, plan, now) && Steps(l1, j1, ops, l2, j2)
    requires ops == if ran then Doings(l1, cursor, live, now, plan(cursor)) else []
    requires Visited(cursor, ran, cursor in l1, cursor in Pending(t), ops, cur, cur', plan(cursor).reply, now)
    ensures Recorded(head, Grown(t, cursor, ops), fired + [ran], NextIn(head, l1, cursor), marks, plan, live, now,
                     j0, l2, j2)
    ensures Accounts(Grown(t, cursor, ops), cur', marks, plan, now)
  {
    hide Accounts, NextOf, Steps, Doings, Visited, RecordedAt, AllRecorded, Distinct, ListNow, Flat, Replay, NextIn;
    hide Sound;
    StepsJoin(t.was, j0, Flat(t.acts), l1, j1, ops, l2, j2);
    FlatGrows(t.acts, ops);
    GrownNow(head, t, cursor, ops);
    StepsSound(t.was, j0, Flat(t.acts), l1, j1);
    StepsSound(t.was, j0, Flat(t.acts) + ops, l2, j2);
    StepsSound(l1, j1, ops, l2, j2);
    AccountsGrow(t, cursor, ran, ops, cur, cur', marks, plan, now);
    MembersIn(t.was, marks);
    RecordedNow(head, t, fired, marks, plan, live, now, ran, ops, cur, cur');
    AllRecordedGrows(head, t, fired, marks, plan, live, now, cursor, ran, ops);
  }

  lemma RecordStarts(head: Alarm, l: seq<Alarm>, marks: map<Alarm, Marking>, plan: Alarm -> Behaviour,
                     live: bool, now: nat, journal: seq<Op<Alarm>>)
    requires Distinct(l) && marks.Keys == Members(l)
    ensures var t := Trip(l, [], []);
      && Recorded(head, t, [], First(l, head), marks, plan, live, now, journal, l, journal)
      && Accounts(t, marks, marks, plan, now)
  {
    NoSteps(l, journal);
    NothingActed(l);
  }

  lemma NothingActed(l: seq<Alarm>)
    ensures var t := Trip(l, [], []);
      Flat(t.acts) == [] && Started<Alarm>([]) == {} && Pending(t) == Members(l) && ListNow(t) == l
  {
    var t: Trip<Alarm> := Trip(l, [], []);
    assert t.acts[..0] == [];
  }

  lemma MembersIn(l: seq<Alarm>, marks: map<Alarm, Marking>)
    requires marks.Keys == Members(l)
    ensures forall a :: a in l ==> a in marks
  {
  }

  lemma StepsSound(l: seq<Alarm>, j: seq<Op<Alarm>>, ops: seq<Op<Alarm>>, l': seq<Alarm>, j': seq<Op<Alarm>>)
    requires Steps(l, j, ops, l', j')
    ensures Sound(l, ops) && l' == Replay(l, ops)
  {
  }

  /** List and journal both move by `ops`. */
  ghost predicate Steps(l: seq<Alarm>, j: seq<Op<Alarm>>, ops: seq<Op<Alarm>>, l': seq<Alarm>, j': seq<Op<Alarm>>) {
    j' == j + ops && l' == Replay(l, ops) && Sound(l, ops)
  }

  lemma StepsJoin(l0: seq<Alarm>, j0: seq<Op<Alarm>>, x: seq<Op<Alarm>>, l1: seq<Alarm>, j1: seq<Op<Alarm>>,
                  y: seq<Op<Alarm>>, l2: seq<Alarm>, j2: seq<Op<Alarm>>)
    requires Steps(l0, j0, x, l1, j1) && Steps(l1, j1, y, l2, j2)
    ensures Steps(l0, j0, x + y, l2, j2) && l1 == Replay(l0, x)
    ensures Started(x + y) == Started(x) + Started(y)
  {
    ReplaySuffix(l0, x, y);
    StartedJoin(x, y);
    assert (j0 + x) + y == j0 + (x + y);
  }

  lemma NoSteps(l: seq<Alarm>, j: seq<Op<Alarm>>)
    ensures Steps(l, j, [], l, j) && Started<Alarm>([]) == {}
  {
  }

  lemma CutOut(head: Alarm, list: seq<Alarm>, i: nat)
    requires i < |list|
    ensures var c := [head] + list + [head];
      [head] + (list[..i] + list[i + 1..]) + [head] == c[..i + 1] + c[i + 2..]
  {
  }

  class System {
    const head: Alarm
    var nticks: u32
    var tick_rate: u32
    ghost var now: nat
    ghost var list: seq<Alarm>  // what the pointers stand for
    ghost var journal: seq<Op<Alarm>>

    ghost function Cycle(): seq<Alarm>
      reads this`list
    {
      [head] + list + [head]
    }

    ghost function Nodes(): set<Alarm>
      reads this`list
    {
      (set a | a in list) + {head}
    }

    /** The pointers form one circle through the head, in the order of `list`. */
    ghost predicate Linked()
      reads this`list, Nodes()`next, Nodes()`previous
    {
      head !in list && Distinct(list) && Chained(Cycle())
    }

    constructor ()
      ensures Linked() && list == [] && journal == [] && nticks == 0 && now == 0 && fresh(head)
    {
      head := new Alarm();
      nticks, tick_rate, now, list, journal := 0, 0, 0, [], [];
      new;
      head.next, head.previous := head, head;
    }

    /** Positions 0..|list| of the cycle hold different alarms, and so do 1..|list|+1. */
    lemma Places(c: seq<Alarm>)
      requires Linked() && c == Cycle()
      ensures c[0] == c[|c| - 1] == head && c[1..|c| - 1] == list
      ensures Circle(c)
    {
    }

    /** alt_llist_insert on the list head. */
    method Insert(entry: Alarm, ghost due: nat)
      requires Linked() && entry !in Nodes()
      modifies this`list, this`journal, Nodes()`next, Nodes()`previous, entry`next, entry`previous
      ensures Linked() && list == [entry] + old(list)
      ensures journal == old(journal) + [Enter(entry, due)]
    {
      ghost var c := Cycle();
      Places(c);
      assert c[0].next == c[1];
      entry.previous := head;
      entry.next := head.next;
      head.next.previous := entry;
      head.next := entry;
      list := [entry] + list;
      journal := journal + [Enter(entry, due)];
      ghost var c' := Cycle();
      assert c' == [head, entry] + c[1..];
      forall i, j | 0 <= i && j == i + 1 && j < |c'|
        ensures c'[i].next == c'[j] && c'[j].previous == c'[i]
      {
        if i >= 2 {
          assert c'[i] == c[i - 1] && c'[j] == c[i];
        }
      }
    }

    lemma Locate(entry: Alarm, c: seq<Alarm>) returns (i: nat)
      requires Linked() && entry in list && c == Cycle()
      ensures i + 2 < |c| && c[i + 1] == entry && Chained(c) && Circle(c)
      ensures var rest := Without(list, entry);
        head !in rest && Distinct(rest) && [head] + rest + [head] == c[..i + 1] + c[i + 2..]
    {
      Places(c);
      i :| i < |list| && list[i] == entry;
      WithoutMembers(list, entry);
      WithoutAt(list, i);
      CutOut(head, list, i);
      hide Without, Distinct, Chained, Circle;
    }

    /** alt_alarm_stop: take the alarm out; on one already taken out, change nothing. */
    method Stop(entry: Alarm)
      requires Linked() && entry != head && (entry in list || entry.Idle())
      modifies this`list, this`journal, Nodes()`next, Nodes()`previous, entry`next, entry`previous
      ensures Linked() && list == Without(old(list), entry) && entry.Idle()
      ensures journal == old(journal) + [Leave(entry)]
      ensures old(entry.Idle()) ==> list == old(list)
      ensures old(entry.Idle()) ==>
        forall a :: a in Nodes() ==> a.next == old(a.next) && a.previous == old(a.previous)
    {
      ghost var linked, c := entry in list, Cycle();
      ghost var i: nat, before, after := 0, entry, entry;
      if linked {
        i := Locate(entry, c);
        LinkedNotIdle(entry);
        before, after := c[i], c[i + 2];
      } else {
        WithoutAbsent(list, entry);
      }
      hide Chained, Without, Distinct, Circle, Alarm.Idle;
      Unlink(entry, c, i, before, after, linked);
      list := Without(list, entry);
      journal := journal + [Leave(entry)];
    }

    /** Taking one member out and joining its neighbours keeps the rest linked. */
    lemma Closed(c: seq<Alarm>, c': seq<Alarm>, i: nat)
      requires Circle(c) && i + 2 < |c| && c' == c[..i + 1] + c[i + 2..] && ChainedBut(c, i)
      requires c[i].next == c[i + 2] && c[i + 2].previous == c[i]
      ensures Chained(c')
    {
    }

    /** The pointer surgery of alt_llist_remove, on a member of the circle `c` or on an alarm
        that already points to itself. */
    method Unlink(entry: Alarm, ghost c: seq<Alarm>, ghost i: nat, ghost before: Alarm, ghost after: Alarm,
                  ghost linked: bool)
      requires linked ==> Chained(c) && Circle(c) && i + 2 < |c| &&
                          c[i] == before && c[i + 1] == entry && c[i + 2] == after
      requires !linked ==> entry.Idle() && before == entry == after
      modifies before`next, after`previous, entry`next, entry`previous
      ensures entry.Idle() && (linked ==> Chained(c[..i + 1] + c[i + 2..]))
    {
      assert entry.next == after && entry.previous == before;
      entry.next.previous := entry.previous;
      entry.previous.next := entry.next;
      entry.previous := entry;
      entry.next := entry;
      if linked {
        Closed(c, c[..i + 1] + c[i + 2..], i);
      }
    }

    lemma LinkedNotIdle(entry: Alarm)
      requires Linked() && entry in list
      ensures !entry.Idle()
    {
      var c := Cycle();
      var i := Locate(entry, c);
      assert c[i + 1] != c[i + 2];
    }

    lemma KeptFromStart(at: nat, delay: u32)
      ensures Kept(History(at + delay + 1, [], []), at, at + delay + 1)
    {
    }

    /** alt_alarm_start. An alarm that is already in the list must not be started again. */
    method Start(alarm: Alarm?, delay: u32) returns (rc: int)
      requires Linked() && nticks == U32(now) && (alarm != null ==> alarm !in Nodes())
      modifies this`list, this`journal, Nodes()`next, Nodes()`previous, (if alarm == null then {} else {alarm})
      ensures Linked()
      ensures rc == if tick_rate == 0 then -ENOTSUP else if alarm == null then -EINVAL else 0
      ensures rc != 0 ==> list == old(list) && journal == old(journal)
      ensures rc != 0 && alarm != null ==> unchanged(alarm)
      ensures rc == 0 ==> list == [alarm] + old(list) && journal == old(journal) + [Enter(alarm, now + delay + 1)]
      ensures rc == 0 ==> alarm.due == now + delay + 1 && alarm.hist == History(now + delay + 1, [], [])
      ensures rc == 0 ==> Timer(alarm.time, alarm.rollover) == Arm(delay, U32(now))
      ensures rc == 0 && delay < LONGEST ==> alarm.On(now)
    {
      hide Linked, Represents, Kept, Chained, Distinct;
      if tick_rate == 0 {
        return -ENOTSUP;
      }
      if alarm == null {
        return -EINVAL;
      }
      var current := nticks;
      alarm.time := U32(delay + current + 1);
      if alarm.time < current {
        alarm.rollover := true;
      } else {
        alarm.rollover := false;
      }
      alarm.due := now + delay + 1;
      alarm.hist := History(now + delay + 1, [], []);
      assert Timer(alarm.time, alarm.rollover) == Arm(delay, U32(now));
      if delay < LONGEST {
        ArmRepresents(delay, now);
        KeptFromStart(now, delay);
        assert alarm.On(now);
      }
      hide *;
      Insert(alarm, now + delay + 1);
      rc := 0;
    }

    /** Between ticks: the pointers are in order, the clock is the tick count modulo 2^32, and
        every registered alarm encodes its deadline and has kept its schedule since it was
        started. */
    ghost predicate Inv()
      reads this`list, this`nticks, this`now, Nodes()
    {
      Walking({}, head)
    }

    /** In mid-tick, with the alarms of `pend` still as they were at the previous tick and the visit
        of `current` not yet accounted for. */
    ghost predicate Walking(pend: set<Alarm>, current: Alarm)
      reads this`list, this`nticks, this`now, Nodes(), pend
    {
      && Linked()
      && nticks == U32(now)
      && (pend != {} ==> now > 0)
      && (forall a :: a in pend ==> a.On(now - 1))
      && (forall a :: a in list && a !in pend && a != current ==> a.On(now))
    }

    /** The history of a registered alarm begins at the deadline that it was last started for. */
    ghost predicate Dated()
      reads this`list, this`journal, Members(list)`hist
    {
      forall a :: a in list ==> a.hist.base == FirstDue(journal, a)
    }

    twostate lemma StillDated(op: Op<Alarm>)
      requires old(Dated()) && journal == old(journal) + [op]
      requires forall x :: x in list ==> x in old(list) || (op.Enter? && x == op.a)
      requires forall x :: x in list && x != op.a ==> x.hist == old(x.hist)
      requires if op.Enter? then op.a.hist.base == op.due else op.a !in list
      ensures Dated()
    {
      forall x | x in list ensures x.hist.base == FirstDue(journal, x) {
        FirstDueNext(old(journal), op, x);
      }
    }

    twostate lemma SameDated()
      requires old(Dated()) && journal == old(journal) && list == old(list)
      requires forall x :: x in list ==> x.hist == old(x.hist)
      ensures Dated()
    {
    }

    /** All alarms ever started are known; known alarms are registered, or point to themselves, or
        were never started. */
    ghost predicate Known(pool: set<Alarm>)
      reads this`list, this`journal, pool`next, pool`previous, pool`hist
    {
      && head !in pool
      && Journaled(list, journal)
      && (forall a :: a in list ==> a in pool)
      && (forall i :: 0 <= i < |journal| ==> journal[i].a in pool)
      && (forall a :: a in pool ==> a in list || a.Idle() || (a.next == a.previous == null && a !in Started(journal)))
      && Dated()
    }

    /** The journal and the list have both moved by `ops`. */
    twostate predicate Moved(new ops: seq<Op<Alarm>>)
      reads this`list, this`journal
    {
      Steps(old(list), old(journal), ops, list, journal)
    }

    /** An alarm that is neither visited nor started keeps its deadline and its history. */
    twostate predicate Keeps(alarms: set<Alarm>)
      reads alarms
    {
      forall a :: a in alarms ==> a.Mark() == old(a.Mark())
    }

    lemma Registered(a: Alarm, pool: set<Alarm>)
      requires Linked() && Known(pool) && a in pool
      ensures a in list <==> a.next != null && a.next != a
    {
      if a in list {
        var c := Cycle();
        var i := Locate(a, c);
        assert c[i + 1] != c[i + 2];
      }
    }

    lemma JournalMoves(op: Op<Alarm>)
      requires Journaled(list, journal) && (op.Enter? ==> op.a !in list)
      ensures Journaled(Apply(list, op), journal + [op])
      ensures Replay(list, [op]) == Apply(list, op) && Sound(list, [op])
      ensures Started(journal + [op]) == Started(journal) + if op.Enter? then {op.a} else {}
    {
      StartedJoin(journal, [op]);
      assert [op][0] == op;
      assert [op][..0] == [];
      assert (journal + [op])[..|journal|] == journal;
    }

    /** alt_alarm_start by code that knows the alarms of `pool`. */
    method StartKnown(a: Alarm, delay: u32, ghost pool: set<Alarm>)
      requires Linked() && Known(pool) && nticks == U32(now)
      requires a in pool && a !in list
      modifies this`list, this`journal, Nodes()`next, Nodes()`previous, a
      ensures Linked() && Known(pool)
      ensures Moved(if tick_rate != 0 then [Enter(a, now + delay + 1)] else [])
      ensures if tick_rate != 0 then Timer(a.time, a.rollover) == Arm(delay, U32(now)) else unchanged(a)
      ensures tick_rate != 0 && delay < LONGEST ==> a.On(now)
      ensures forall x :: x in list <==> x in old(list) || (tick_rate != 0 && x == a)
      ensures forall x :: x in pool && x != a && x !in old(list) && old(x.Idle()) ==> x.Idle()
    {
      hide Distinct, Journaled, Sound, Replay, Started, Alarm.On, Arm, Dated;
      ghost var was := list;
      JournalMoves(Enter(a, now + delay + 1));
      NoSteps(list, journal);
      hide Linked;
      var rc := Start(a, delay);
      if rc == 0 {
        StillDated(Enter(a, now + delay + 1));
      } else {
        SameDated();
      }
      forall x | x in pool && x !in was && x != a
        ensures x.next == old(x.next) && x.previous == old(x.previous)
      {
        assert x !in old(Nodes());
      }
    }

    /** alt_alarm_stop by code that knows the alarms of `pool`. */
    method StopKnown(a: Alarm, ghost pool: set<Alarm>)
      requires Linked() && Known(pool) && a in pool && (a in list || a.Idle())
      modifies this`list, this`journal, Nodes()`next, Nodes()`previous, a`next, a`previous
      ensures Linked() && Known(pool) && Moved([Leave(a)])
      ensures a.Idle() && a !in list && forall x :: x in list ==> x in old(list)
      ensures forall x :: x in old(list) && x !in list ==> x == a
      ensures forall x :: x in pool && x !in old(list) && old(x.Idle()) ==> x.Idle()
    {
      ghost var was := list;
      JournalMoves(Leave(a));
      assert Distinct(list);
      hide Linked, Distinct, Without, Journaled, Replay, Sound, Started, Dated;
      Stop(a);
      forall x ensures x in list <==> x in was && x != a {
        WithoutMember(was, a, x);
      }
      StillDated(Leave(a));
      forall x | x in pool && x !in was && x != a
        ensures x.next == old(x.next) && x.previous == old(x.previous)
      {
        assert x !in old(Nodes());
      }
    }

    /** The alarm whose callback is running may have been stopped by it, but nothing else. */
    ghost predicate Present(current: Alarm)
      reads this`list, current`next, current`previous
    {
      current == head || current in list || current.Idle()
    }

    /** Starting an alarm in mid-tick: it is on schedule at once. */
    method StartDuringTick(a: Alarm, delay: u32, ghost current: Alarm, ghost pend: set<Alarm>, ghost pool: set<Alarm>)
      requires Walking(pend, current) && Known(pool) && a in pool && a !in list && a != current && delay < LONGEST
      requires current in pool + {head} && Present(current) && pend <= pool
      modifies this`list, this`journal, Nodes()`next, Nodes()`previous, a
      ensures var ops := if tick_rate != 0 then [Enter(a, now + delay + 1)] else [];
        var fresh_ := if tick_rate != 0 then {a} else {};
        Moved(ops) && Walking(pend - fresh_, current) && Keeps(pool - fresh_)
      ensures Known(pool) && Present(current)
    {
      hide Linked, Journaled, Alarm.On, Steps, Started;
      StartKnown(a, delay, pool);
    }

    /** Stopping an alarm in mid-tick. */
    method StopDuringTick(a: Alarm, ghost current: Alarm, ghost pend: set<Alarm>, ghost pool: set<Alarm>)
      requires Walking(pend, current) && Known(pool) && a in pool && (a in list || a.Idle())
      requires current in pool + {head} && Present(current) && pend <= pool
      modifies this`list, this`journal, Nodes()`next, Nodes()`previous, a`next, a`previous
      ensures Moved([Leave(a)]) && Walking(pend, current) && Keeps(pool)
      ensures Known(pool) && Present(current) && a !in list && a.Idle()
    {
      hide Linked, Journaled, Alarm.On, Steps, Started;
      StopKnown(a, pool);
    }

    /** One action. */
    method Act(act: Action, current: Alarm, ghost pend: set<Alarm>, ghost pool: set<Alarm>)
      returns (ghost ops: seq<Op<Alarm>>)
      requires Walking(pend, current) && Known(pool) && act.a in pool && (act.StartIt? ==> act.delay < LONGEST)
      requires current in pool + {head} && Present(current) && pend <= pool
      modifies this`list, this`journal, head`next, head`previous, pool
      ensures ops == Deed(old(list), current, tick_rate != 0, now, act) && Moved(ops)
      ensures Walking(pend - Started(ops), current) && Known(pool) && Present(current)
      ensures Keeps(pool - Started(ops))
    {
      var a := act.a;
      Registered(a, pool);
      var registered := a.next != null && a.next != a;
      ops := Deed(list, current, tick_rate != 0, now, act);
      DeedIs(list, current, tick_rate != 0, now, act);
      NoSteps(list, journal);
      NodesKnown(pool);
      assert pend - {} == pend && pool - {} == pool;
      hide Linked, Journaled, Alarm.On, Deed, Started, Steps, Walking, Known, Present;
      match act {
        case StartIt(_, delay) =>
          if !registered && a != current {
            StartDuringTick(a, delay, current, pend, pool);
          }
        case StopIt(_) =>
          if registered {
            StopDuringTick(a, current, pend, pool);
          }
      }
    }

    lemma NodesKnown(pool: set<Alarm>)
      requires Known(pool)
      ensures Nodes() <= pool + {head}
    {
    }

    lemma DeedIs(l: seq<Alarm>, current: Alarm, live: bool, now: nat, act: Action)
      ensures var ops := Deed(l, current, live, now, act);
        && ops == (match act
                   case StartIt(a, delay) => if live && a !in l && a != current then [Enter(a, now + delay + 1)] else []
                   case StopIt(a) => if a in l then [Leave(a)] else [])
        && Started(ops) == if act.StartIt? && live && act.a !in l && act.a != current then {act.a} else {}
    {
      var ops := Deed(l, current, live, now, act);
      if ops != [] {
        assert ops == [ops[0]];
      }
    }

    /** A stretch of code: any number of starts and stops. */
    method Perform(actions: seq<Action>, current: Alarm, ghost pend: set<Alarm>, ghost pool: set<Alarm>)
      returns (ghost ops: seq<Op<Alarm>>)
      requires Walking(pend, current) && Known(pool) && Permitted(actions, pool)
      requires current in pool + {head} && Present(current) && pend <= pool
      modifies this`list, this`journal, head`next, head`previous, pool
      ensures ops == Deeds(old(list), current, tick_rate != 0, now, actions) && Moved(ops)
      ensures Walking(pend - Started(ops), current) && Known(pool) && Present(current)
      ensures Keeps(pool - Started(ops))
    {
      ghost var l0, j0 := list, journal;
      if actions == [] {
        ops := [];
        NoSteps(l0, j0);
        assert pend - {} == pend;
      } else {
        var n := |actions| - 1;
        PermittedParts(actions, pool);
        hide Walking, Known, Deeds, Deed, Started, Steps, Present, Permitted, Alarm.Mark;
        ghost var before := Perform(actions[..n], current, pend, pool);
        ghost var l1, j1 := list, journal;
        ghost var more := Act(actions[n], current, pend - Started(before), pool);
        ops := before + more;
        StepsJoin(l0, j0, before, l1, j1, more, list, journal);
        DeedsGrow(l0, current, tick_rate != 0, now, actions, n);
        LessBoth(pend, Started(before), Started(more));
        LessBoth(pool, Started(before), Started(more));
      }
    }

    lemma PermittedParts(actions: seq<Action>, pool: set<Alarm>)
      requires Permitted(actions, pool) && actions != []
      ensures var n := |actions| - 1;
        && Permitted(actions[..n], pool) && actions[..n + 1] == actions
        && actions[n].a in pool && (actions[n].StartIt? ==> actions[n].delay < LONGEST)
    {
    }

    lemma LessBoth(s: set<Alarm>, x: set<Alarm>, y: set<Alarm>)
      ensures s - (x + y) == (s - x) - y == (s - x) * (s - y)
    {
    }

    lemma DeedsGrow(l: seq<Alarm>, current: Alarm, live: bool, now: nat, actions: seq<Action>, i: nat)
      requires i < |actions|
      ensures var before := Deeds(l, current, live, now, actions[..i]);
        Deeds(l, current, live, now, actions[..i + 1]) ==
          before + Deed(Replay(l, before), current, live, now, actions[i])
    {
      assert actions[..i + 1][..i] == actions[..i];
    }

    /** The first half of a visit: clear the flag when the clock wraps, and see whether the callback
        is due. An alarm on schedule runs exactly at its deadline. `exact` is false only for a
        visit to an alarm that has been stopped. */
    method Test(alarm: Alarm, ghost pend: set<Alarm>, ghost exact: bool, ghost pool: set<Alarm>) returns (ran: bool)
      requires Walking(pend, alarm) && Known(pool) && alarm !in pend && now > 0
      requires exact ==> alarm.On(now - 1) || alarm.On(now)
      modifies alarm`rollover
      ensures Walking(pend, alarm) && Known(pool)
      ensures exact && ran ==> alarm.due == now && Reached(alarm.Mark(), now)
      ensures alarm.due == old(alarm.due) && alarm.hist == old(alarm.hist)
      ensures exact && !ran ==> alarm.due != now && alarm.On(now)
      ensures ran <==> Fires(old(Timer(alarm.time, alarm.rollover)), nticks)
    {
      ghost var t := Timer(alarm.time, alarm.rollover);
      if exact {
        TestExact(t, alarm.hist, alarm.due);
      }
      hide Linked, Journaled, Represents, Kept, U32;
      assert Cleared(t, nticks) == if t.rollover && nticks == 0 then t.(rollover := false) else t;
      if alarm.rollover && nticks == 0 {
        alarm.rollover := false;
      }
      assert Timer(alarm.time, alarm.rollover) == Cleared(t, nticks);
      ran := alarm.time <= nticks && !alarm.rollover;
    }

    lemma TestExact(t: Timer, h: History, due: nat)
      requires nticks == U32(now) && now > 0
      requires (Represents(t, now - 1, due) && Kept(h, now - 1, due)) || (Represents(t, now, due) && Kept(h, now, due))
      ensures Fires(t, nticks) <==> due == now
      ensures due == now ==> Cleared(t, nticks) == Timer(nticks, false) && Kept(h, now - 1, due)
      ensures due != now ==> Represents(Cleared(t, nticks), now, due) && Kept(h, now, due)
    {
      if Represents(t, now - 1, due) && Kept(h, now - 1, due) {
        TickIsExact(t, now - 1, due);
        if due != now {
          KeptWaits(h, now - 1, due);
        }
      } else {
        TickAgain(t, now, due);
      }
    }

    /** The second half: the answer to the callback's reply. */
    method Answer(alarm: Alarm, reply: u32, ghost pend: set<Alarm>, ghost exact: bool, ghost pool: set<Alarm>)
      requires Walking(pend, alarm) && Known(pool) && alarm in pool && alarm !in pend && pend <= pool && now > 0
      requires alarm in list || alarm.Idle()
      requires exact ==> Reached(alarm.Mark(), now)
      modifies this`list, this`journal, head`next, head`previous, pool
      ensures Walking(pend, alarm) && Known(pool)
      ensures Moved(if reply == 0 then [Leave(alarm)] else []) && (alarm in list || alarm.Idle())
      ensures alarm in list && exact ==> alarm.On(now)
      ensures Replied(old(alarm.Mark()), alarm.Mark(), now, reply)
      ensures Keeps(pool - {alarm})
    {
      NoSteps(list, journal);
      NodesKnown(pool);
      hide Linked, Journaled, Alarm.On, Represents, Reached, Replied, Alarm.Mark, U32, Steps, Known;
      if reply == 0 {
        AnswerNo(alarm, pend, pool);
      } else {
        AnswerYes(alarm, reply, pend, exact, pool);
      }
    }

    method AnswerNo(alarm: Alarm, ghost pend: set<Alarm>, ghost pool: set<Alarm>)
      requires Walking(pend, alarm) && Known(pool) && alarm in pool && alarm !in pend && pend <= pool && now > 0
      requires alarm in list || alarm.Idle()
      modifies this`list, this`journal, Nodes()`next, Nodes()`previous, alarm`next, alarm`previous, alarm`hist
      ensures Walking(pend, alarm) && Known(pool) && Moved([Leave(alarm)]) && alarm !in list && alarm.Idle()
      ensures alarm.hist == old(alarm.hist).Ran(now, 0) && Keeps(pool - {alarm})
    {
      hide Linked, Journaled, Alarm.On, Sound, Replay;
      StopDuringTick(alarm, alarm, pend, pool);
      alarm.hist := alarm.hist.Ran(now, 0);
    }

    method AnswerYes(alarm: Alarm, reply: u32, ghost pend: set<Alarm>, ghost exact: bool, ghost pool: set<Alarm>)
      requires Walking(pend, alarm) && Known(pool) && alarm in pool && alarm !in pend && now > 0 && reply > 0
      requires exact ==> Reached(alarm.Mark(), now)
      modifies alarm`time, alarm`rollover, alarm`due, alarm`hist
      ensures Walking(pend, alarm) && Known(pool) && (exact ==> alarm.On(now))
      ensures Replied(old(alarm.Mark()), alarm.Mark(), now, reply)
      ensures Keeps(pool - {alarm})
    {
      hide Journaled, Alarm.On, Represents, Kept, FirstDue, Started, Alarm.Idle;
      alarm.Repeat(reply, nticks, now, exact);
    }

    /** A visit whose callback runs. */
    method Serve(alarm: Alarm, b: Behaviour, ghost pend: set<Alarm>, ghost exact: bool, ghost pool: set<Alarm>)
      returns (ghost ops: seq<Op<Alarm>>)
      requires Walking(pend, alarm) && Known(pool) && alarm in pool && alarm !in pend && pend <= pool && now > 0
      requires Permitted(b.actions, pool) && (alarm in list || alarm.Idle())
      requires exact ==> Reached(alarm.Mark(), now)
      modifies this`list, this`journal, head`next, head`previous, pool
      ensures ops == Doings(old(list), alarm, tick_rate != 0, now, b) && Moved(ops)
      ensures Walking(pend - Started(ops), alarm) && Known(pool) && (alarm in list || alarm.Idle())
      ensures alarm in list && exact ==> alarm.On(now)
      ensures Replied(old(alarm.Mark()), alarm.Mark(), now, b.reply)
      ensures alarm !in Started(ops) && Keeps(pool - {alarm} - Started(ops))
    {
      ghost var l0, j0, mark := list, journal, alarm.Mark();
      ghost var live, last := tick_rate != 0, if b.reply == 0 then [Leave(alarm)] else [];
      ServeStarts(list, alarm, live, now, b, last);
      KnownApart(pool);
      hide Walking, Known, Linked, Deeds, Doings, Started, Steps, Alarm.On, Alarm.Mark, Alarm.Idle, Reached, Replied;
      hide Permitted;
      ghost var deeds := Perform(b.actions, alarm, pend, pool);
      ghost var l1, j1 := list, journal;
      assert alarm.Mark() == mark;
      Answer(alarm, b.reply, pend - Started(deeds), exact, pool);
      ops := deeds + last;
      StepsJoin(l0, j0, deeds, l1, j1, last, list, journal);
      assert pool - {alarm} - Started(ops) == (pool - Started(deeds)) * (pool - {alarm});
    }

    lemma KnownApart(pool: set<Alarm>)
      requires Known(pool)
      ensures head !in pool && forall a :: a in list ==> a in pool
    {
    }

    lemma ServeStarts(l: seq<Alarm>, alarm: Alarm, live: bool, now: nat, b: Behaviour, last: seq<Op<Alarm>>)
      requires last == if b.reply == 0 then [Leave(alarm)] else []
      ensures var deeds := Deeds(l, alarm, live, now, b.actions);
        Doings(l, alarm, live, now, b) == deeds + last && alarm !in Started(deeds) && Started(last) == {}
        && Started(deeds) + {} == Started(deeds)
    {
      DeedsSpare(l, alarm, live, now, b.actions);
    }

    /** The body of alt_tick's loop for one alarm. */
    method Visit(alarm: Alarm, b: Behaviour, ghost pend: set<Alarm>, ghost exact: bool, ghost pool: set<Alarm>)
      returns (ran: bool, ghost ops: seq<Op<Alarm>>)
      requires Walking(pend, alarm) && Known(pool) && alarm in pool && alarm !in pend && pend <= pool && now > 0
      requires Permitted(b.actions, pool) && (alarm in list || alarm.Idle())
      requires exact ==> alarm.On(now - 1) || alarm.On(now)
      modifies this`list, this`journal, head`next, head`previous, pool
      ensures ops == (if ran then Doings(old(list), alarm, tick_rate != 0, now, b) else []) && Moved(ops)
      ensures Walking(pend - Started(ops), alarm) && Known(pool) && (alarm in list || alarm.Idle())
      ensures alarm in list && exact ==> alarm.On(now)
      ensures exact ==> (ran <==> old(alarm.due) == now)
      ensures ran <==> Fires(old(Timer(alarm.time, alarm.rollover)), nticks)
      ensures ran ==> Replied(old(alarm.Mark()), alarm.Mark(), now, b.reply)
      ensures !ran ==> alarm.due == old(alarm.due) && alarm.hist == old(alarm.hist)
      ensures alarm !in Started(ops) && Keeps(pool - {alarm} - Started(ops))
    {
      NoSteps(list, journal);
      assert pend - {} == pend && pool - {alarm} - {} == pool - {alarm};
      hide Walking, Known, Doings, Started, Steps, Alarm.On, Kept, Permitted, Alarm.Idle, Linked;
      ran := Test(alarm, pend, exact, pool);
      ops := [];
      if ran {
        ops := Serve(alarm, b, pend, exact, pool);
      }
    }

    lemma {:induction false} DeedsSpare(l: seq<Alarm>, current: Alarm, live: bool, now: nat, actions: seq<Action>)
      ensures current !in Started(Deeds(l, current, live, now, actions))
      decreases |actions|
    {
      if actions != [] {
        var before := Deeds(l, current, live, now, actions[..|actions| - 1]);
        DeedsSpare(l, current, live, now, actions[..|actions| - 1]);
        DeedIs(Replay(l, before), current, live, now, actions[|actions| - 1]);
        StartedJoin(before, Deed(Replay(l, before), current, live, now, actions[|actions| - 1]));
      }
    }

    lemma Successor(cursor: Alarm)
      requires Linked() && (cursor in list || cursor.Idle()) && cursor != head
      ensures cursor.next == NextIn(head, list, cursor)
      ensures cursor !in list ==> NextIn(head, list, cursor) == cursor
    {
      if cursor in list {
        var c := Cycle();
        var i: nat :| i < |list| && list[i] == cursor;
        NextOfTail(head, list, list[i..]);
        assert list[i..][1..] == list[i + 1..];
        assert c[i + 1] == cursor && c[i + 1].next == c[i + 2];
      } else {
        NextOfAbsent(head, list, cursor);
      }
    }

    lemma FirstEntry()
      requires Linked()
      ensures head.next == First(list, head)
    {
      var c := Cycle();
      assert c[0].next == c[1];
    }

    /** One turn of the loop: the successor is read, then the alarm is visited. `cursor` is in the
        list, or it was stopped by the callback before and points to itself. */
    method Turn(cursor: Alarm, plan: Alarm -> Behaviour, ghost pend: set<Alarm>, ghost pool: set<Alarm>)
      returns (next: Alarm, ran: bool, ghost ops: seq<Op<Alarm>>)
      requires Walking(pend, if cursor in list then head else cursor) && Known(pool) && Planned(plan, pool)
      requires cursor in pool && pend <= pool && now > 0 && (cursor in list || (cursor.Idle() && cursor !in pend))
      modifies this`list, this`journal, head`next, head`previous, pool
      ensures next == NextIn(head, old(list), cursor) && Moved(ops) && Known(pool) && (cursor in list || cursor.Idle())
      ensures ops == (if ran then Doings(old(list), cursor, tick_rate != 0, now, plan(cursor)) else [])
      ensures Walking(pend - {cursor} - Started(ops), if old(cursor in list) then head else cursor)
      ensures old(cursor in list) ==> (ran <==> old(cursor.due) == now)
      ensures old(cursor in list) && cursor !in pend ==> !ran
      ensures ran ==> Replied(old(cursor.Mark()), cursor.Mark(), now, plan(cursor).reply)
      ensures !ran ==> cursor.due == old(cursor.due) && cursor.hist == old(cursor.hist)
      ensures cursor !in Started(ops) && Keeps(pool - {cursor} - Started(ops))
    {
      KnownApart(pool);
      Successor(cursor);
      next := cursor.next;
      ghost var listed := cursor in list;
      VisitStarts(pend, cursor);
      PlannedFor(plan, pool, cursor);
      hide *;
      ran, ops := Visit(cursor, plan(cursor), pend - {cursor}, listed, pool);
      if listed {
        VisitEnds(pend - {cursor} - Started(ops), cursor);
      }
    }

    lemma PlannedFor(plan: Alarm -> Behaviour, pool: set<Alarm>, a: Alarm)
      requires Planned(plan, pool) && a in pool
      ensures Permitted(plan(a).actions, pool)
    {
    }

    lemma VisitStarts(pend: set<Alarm>, cursor: Alarm)
      requires Walking(pend, if cursor in list then head else cursor)
      ensures Walking(pend - {cursor}, cursor)
      ensures cursor in list && cursor in pend ==> cursor.On(now - 1)
      ensures cursor in list && cursor !in pend ==> cursor.On(now) && cursor.due != now
    {
      assert head !in list;
    }

    lemma VisitEnds(pend: set<Alarm>, cursor: Alarm)
      requires Walking(pend, cursor) && (cursor in list ==> cursor.On(now))
      ensures Walking(pend, head)
    {
    }

    /** The state of the loop: either the walk is under way, or it is stranded on an alarm that has
        been taken out of the list. */
    ghost predicate Going(t: Trip<Alarm>, cursor: Alarm, pool: set<Alarm>)
      requires Even(t)
      reads this, Nodes(), pool, cursor
    {
      && now > 0 && Known(pool) && cursor in pool + {head} && (forall a :: a in t.was ==> a in pool)
      && list == ListNow(t)
      && if NeverStranded(head, t) then Walking(Pending(t), head) && Underway(head, t, cursor, |pool|)
         else cursor != head && cursor !in list && cursor.Idle() && Walking(Pending(t) - {cursor}, cursor)
    }

    /** One turn taken by a walk under way. */
    method TurnOn(cursor: Alarm, plan: Alarm -> Behaviour, ghost t: Trip<Alarm>, ghost pool: set<Alarm>)
      returns (next: Alarm, ran: bool, ghost ops: seq<Op<Alarm>>)
      requires Even(t) && Going(t, cursor, pool) && cursor != head && Planned(plan, pool)
      modifies this`list, this`journal, head`next, head`previous, pool
      ensures Even(Grown(t, cursor, ops)) && Going(Grown(t, cursor, ops), next, pool)
      ensures Moved(ops) && next == NextIn(head, old(list), cursor)
      ensures ops == (if ran then Doings(old(list), cursor, tick_rate != 0, now, plan(cursor)) else [])
      ensures old(cursor in list) ==> (ran <==> old(cursor.due) == now)
      ensures old(cursor in list) && cursor !in Pending(t) ==> !ran
      ensures ran ==> Replied(old(cursor.Mark()), cursor.Mark(), now, plan(cursor).reply)
      ensures !ran ==> cursor.due == old(cursor.due) && cursor.hist == old(cursor.hist)
      ensures Keeps(pool - {cursor} - Started(ops))
    {
      ghost var l0, j0 := list, journal;
      GoingStarts(t, cursor, pool);
      ghost var pend := if cursor in list then Pending(t) else Pending(t) - {cursor};
      hide Going, Walking, Known, Linked, Planned, Underway, NeverStranded, Pending, Doings, Started, Steps, ListNow;
      hide Replied, NextIn, Alarm.Mark, Alarm.Idle, Ahead, Distinct;
      next, ran, ops := Turn(cursor, plan, pend, pool);
      MovesWithin(l0, j0, ops, pool);
      if cursor in l0 {
        GoingOn(t, cursor, ops, next, l0, j0, pool);
      } else {
        GoingRound(t, cursor, ops, next, l0, pool);
      }
    }

    /** What a turn did to the list, it did to known alarms. */
    lemma MovesWithin(l0: seq<Alarm>, j0: seq<Op<Alarm>>, ops: seq<Op<Alarm>>, pool: set<Alarm>)
      requires Known(pool) && Linked() && Steps(l0, j0, ops, list, journal)
      ensures head !in Started(ops) && head !in Stopped(ops) && |Replay(l0, ops)| <= |pool|
      ensures list == Replay(l0, ops) && Sound(l0, ops)
    {
      assert forall i :: 0 <= i < |ops| ==> ops[i] == journal[|j0| + i];
      DistinctFits(list, pool);
    }

    lemma GoingOn(t: Trip<Alarm>, cursor: Alarm, ops: seq<Op<Alarm>>, next: Alarm,
                  l0: seq<Alarm>, j0: seq<Op<Alarm>>, pool: set<Alarm>)
      requires Even(t) && NeverStranded(head, t) && Underway(head, t, cursor, |pool|) && cursor != head
      requires l0 == ListNow(t) && Journaled(l0, j0) && Distinct(l0) && head !in l0 && cursor in l0
      requires forall a :: a in l0 || a in t.was ==> a in pool
      requires Steps(l0, j0, ops, list, journal) && Known(pool) && now > 0
      requires head !in Started(ops) && head !in Stopped(ops) && |Replay(l0, ops)| <= |pool|
      requires next == NextIn(head, l0, cursor) && (cursor !in Pending(t) ==> ops == [])
      requires Walking(Pending(t) - {cursor} - Started(ops), head)
      ensures Going(Grown(t, cursor, ops), next, pool)
    {
      var t' := Grown(t, cursor, ops);
      UnderwayStep(head, t, cursor, ops, |pool|);
      PendingIs(t, cursor, ops);
      if next != head && next !in list {
        ComesFrom([], j0, next);
        StartedJoin(j0, ops);
        assert next.Idle();
        assert Walking(Pending(t') - {next}, next);
      }
    }

    lemma GoingRound(t: Trip<Alarm>, cursor: Alarm, ops: seq<Op<Alarm>>, next: Alarm,
                     l0: seq<Alarm>, pool: set<Alarm>)
      requires Even(t) && !NeverStranded(head, t) && cursor != head && cursor in pool
      requires l0 == ListNow(t) && Distinct(l0) && cursor !in l0 && cursor !in Started(ops)
      requires forall a :: a in t.was ==> a in pool
      requires list == Replay(l0, ops) && Sound(l0, ops) && Known(pool) && now > 0
      requires next == NextIn(head, l0, cursor) && (cursor in list || cursor.Idle())
      requires Walking(Pending(t) - {cursor} - {cursor} - Started(ops), cursor)
      ensures Going(Grown(t, cursor, ops), next, pool)
    {
      NextOfAbsent(head, l0, cursor);
      TripGrows(head, t, cursor, ops);
      GrownNow(head, t, cursor, ops);
      PendingIs(t, cursor, ops);
      if cursor in list {
        ComesFrom(l0, ops, cursor);
      }
      assert Pending(t) - {cursor} - {cursor} - Started(ops) == Pending(Grown(t, cursor, ops)) - {cursor};
    }

    lemma GoingStarts(t: Trip<Alarm>, cursor: Alarm, pool: set<Alarm>)
      requires Even(t) && Going(t, cursor, pool) && cursor != head
      ensures cursor in pool && Known(pool) && now > 0 && Pending(t) <= pool
      ensures Distinct(list) && head !in list && list == ListNow(t) && Journaled(list, journal)
      ensures forall a :: a in list || a in t.was ==> a in pool
      ensures cursor in list ==> Underway(head, t, cursor, |pool|)
      ensures NeverStranded(head, t) <==> cursor in list
      ensures if cursor in list then Walking(Pending(t), head)
              else cursor.Idle() && Walking(Pending(t) - {cursor}, cursor)
    {
    }

    /** The loop invariant of alt_tick. */
    ghost predicate Stage(t: Trip<Alarm>, fired: seq<bool>, cursor: Alarm, marks: map<Alarm, Marking>,
                          plan: Alarm -> Behaviour, pool: set<Alarm>, j0: seq<Op<Alarm>>)
      reads this, Nodes(), pool, cursor, Members(t.was)
    {
      && Even(t) && head !in t.visited && Going(t, cursor, pool)
      && Recorded(head, t, fired, cursor, marks, plan, tick_rate != 0, now, j0, list, journal)
      && Accounts(t, Marks(Members(t.was)), marks, plan, now)
    }

    /** A turn, with all it does to the alarms. */
    method TurnMarked(cursor: Alarm, plan: Alarm -> Behaviour, ghost t: Trip<Alarm>, ghost pool: set<Alarm>)
      returns (next: Alarm, ran: bool, ghost ops: seq<Op<Alarm>>, ghost cur: map<Alarm, Marking>,
               ghost cur': map<Alarm, Marking>)
      requires Even(t) && Going(t, cursor, pool) && cursor != head && Planned(plan, pool)
      modifies this`list, this`journal, head`next, head`previous, pool
      ensures Even(Grown(t, cursor, ops)) && Going(Grown(t, cursor, ops), next, pool)
      ensures Moved(ops) && next == NextIn(head, old(list), cursor) && old(list) == ListNow(t)
      ensures ops == (if ran then Doings(old(list), cursor, tick_rate != 0, now, plan(cursor)) else [])
      ensures cur == old(Marks(Members(t.was))) && cur' == Marks(Members(t.was))
      ensures Visited(cursor, ran, cursor in old(list), cursor in Pending(t), ops, cur, cur', plan(cursor).reply, now)
    {
      GoingIs(t, cursor, pool);
      hide Going, Known, Planned, Doings, NextIn, ListNow, Pending, Started, Replied, Steps, Replay;
      cur := Marks(Members(t.was));
      assert cursor in cur ==> cur[cursor] == cursor.Mark();
      next, ran, ops := TurnOn(cursor, plan, t, pool);
      cur' := Marks(Members(t.was));
    }

    lemma GoingIs(t: Trip<Alarm>, cursor: Alarm, pool: set<Alarm>)
      requires Even(t) && Going(t, cursor, pool)
      ensures list == ListNow(t) && forall a :: a in Members(t.was) ==> a in pool
    {
    }

    method TakeTurn(cursor: Alarm, plan: Alarm -> Behaviour, ghost t: Trip<Alarm>, ghost fired: seq<bool>,
                    ghost marks: map<Alarm, Marking>, ghost pool: set<Alarm>, ghost j0: seq<Op<Alarm>>)
      returns (next: Alarm, ghost t': Trip<Alarm>, ghost fired': seq<bool>)
      requires Stage(t, fired, cursor, marks, plan, pool, j0) && cursor != head && Planned(plan, pool)
      modifies this`list, this`journal, head`next, head`previous, pool
      ensures Stage(t', fired', next, marks, plan, pool, j0)
      ensures |t'.visited| == |t.visited| + 1 && t'.was == t.was
    {
      ghost var l1, j1 := list, journal;
      hide Going, Known, Planned, Doings, NextIn, ListNow, Pending, Started, Steps, Replay, Recorded, Accounts, Visited;
      var ran;
      ghost var ops, cur, cur';
      next, ran, ops, cur, cur' := TurnMarked(cursor, plan, t, pool);
      t', fired' := Grown(t, cursor, ops), fired + [ran];
      RecordedGrows(head, t, fired, cursor, marks, plan, tick_rate != 0, now, j0, l1, j1,
                    ran, ops, cur, cur', list, journal);
    }

    /** The counter goes up: every registered alarm is now still to be visited. Nothing is known of
        `odd`, unless it is the head. */
    method Advance(ghost odd: Alarm, ghost pool: set<Alarm>)
      requires Walking({}, odd) && Known(pool)
      modifies this`nticks, this`now
      ensures Linked() && Known(pool) && nticks == U32(now) && now == old(now) + 1
      ensures Walking(Members(list) - {odd}, odd)
    {
      hide Linked, Alarm.On, Journaled;
      nticks := U32(nticks + 1);
      now := now + 1;
    }

    lemma GoingAtFirst(alarm: Alarm, pool: set<Alarm>)
      requires Walking(Members(list), head) && Known(pool) && now > 0 && alarm == First(list, head)
      ensures Going(Trip(list, [], []), alarm, pool)
    {
      var t := Trip(list, [], []);
      assert Distinct(list) && head !in list;
      KnownApart(pool);
      hide Underway, NeverStranded, ListNow, Flat, Pending, Started, Walking, Known;
      UnderwayStart(head, list, |pool|);
      NothingActed(list);
      if list != [] {
        assert list[0] in pool;
      }
    }

    lemma StageStarts(alarm: Alarm, plan: Alarm -> Behaviour, pool: set<Alarm>)
      requires Walking(Members(list), head) && Known(pool) && now > 0 && alarm == First(list, head)
      ensures Stage(Trip(list, [], []), [], alarm, Marks(Members(list)), plan, pool, journal)
    {
      GoingAtFirst(alarm, pool);
      assert Distinct(list);
      RecordStarts(head, list, Marks(Members(list)), plan, tick_rate != 0, now, journal);
      hide Going, Recorded, Accounts, Walking, Known;
    }

    /** The end of the loop. */
    lemma StageEnds(t: Trip<Alarm>, fired: seq<bool>, alarm: Alarm, marks: map<Alarm, Marking>,
                    plan: Alarm -> Behaviour, pool: set<Alarm>, j0: seq<Op<Alarm>>)
      requires Stage(t, fired, alarm, marks, plan, pool, j0)
      ensures Even(t) && Linked() && Known(pool) && Steps(t.was, j0, Flat(t.acts), list, journal)
      ensures |fired| == |t.acts| && (forall a :: a in t.was ==> a in marks)
      ensures Distinct(t.was) && Sound(t.was, Flat(t.acts))
      ensures head !in t.was && head !in t.visited && alarm == NextOf(head, t)
      ensures AllRecorded(head, t, fired, marks, plan, tick_rate != 0, now)
      ensures list == Added(Flat(t.acts)) + Survivors(t.was, Stopped(Flat(t.acts)))
    {
      hide Underway, AllRecorded, Accounts, Chained, Alarm.On, Journaled;
      MembersIn(t.was, marks);
      StepsSound(t.was, j0, Flat(t.acts), list, journal);
      ReplaySplits(t.was, Flat(t.acts));
    }

    lemma StageBound(t: Trip<Alarm>, fired: seq<bool>, alarm: Alarm, marks: map<Alarm, Marking>,
                     plan: Alarm -> Behaviour, pool: set<Alarm>, j0: seq<Op<Alarm>>)
      requires Stage(t, fired, alarm, marks, plan, pool, j0)
      ensures Even(t)
      ensures alarm == head ==> NeverStranded(head, t)
      ensures NeverStranded(head, t) && |t.visited| >= Bound(|t.was|, |pool|) ==> alarm == head
    {
      hide Underway, Walking, Known, Recorded, Accounts, NeverStranded;
      if NeverStranded(head, t) && |t.visited| >= Bound(|t.was|, |pool|) {
        UnderwayBound(head, t, alarm, |pool|);
      }
    }

    lemma StageHome(t: Trip<Alarm>, fired: seq<bool>, marks: map<Alarm, Marking>,
                    plan: Alarm -> Behaviour, pool: set<Alarm>, j0: seq<Op<Alarm>>)
      requires Stage(t, fired, head, marks, plan, pool, j0)
      ensures Inv() && Even(t) && forall a :: a in t.was ==> a in marks
      ensures t.visited == Survivors(t.was, Missed(t.was, t.acts)) <==> NeverCut(head, t)
      ensures forall a :: a in t.was && a !in Stopped(Flat(t.acts)) ==>
        a in list && Ticked(marks[a], a.Mark(), now, plan(a).reply)
    {
      hide Underway, Known, Chained, Alarm.On, Survivors, Missed, NeverCut, Ticked, Alarm.Mark, Pending, AllRecorded;
      MembersIn(t.was, marks);
      StepsSound(t.was, j0, Flat(t.acts), list, journal);
      UnderwayEnd(head, t, |pool|);
      NonePending(Pending(t));
      HomeAccounts(t, Marks(Members(t.was)), marks, plan);
    }

    lemma HomeAccounts(t: Trip<Alarm>, cur: map<Alarm, Marking>, marks: map<Alarm, Marking>, plan: Alarm -> Behaviour)
      requires Accounts(t, cur, marks, plan, now) && Distinct(t.was) && Sound(t.was, Flat(t.acts))
      requires list == Replay(t.was, Flat(t.acts)) && forall a :: a in list ==> a !in Pending(t)
      ensures forall a :: a in t.was && a !in Stopped(Flat(t.acts)) ==>
        a in list && a in marks && a in cur && Ticked(marks[a], cur[a], now, plan(a).reply)
    {
      forall a | a in t.was && a !in Stopped(Flat(t.acts))
        ensures a in list && a in marks && a in cur && Ticked(marks[a], cur[a], now, plan(a).reply)
      {
        StaysIn(t.was, Flat(t.acts), a);
      }
    }

    lemma NonePending(pend: set<Alarm>)
      requires Walking(pend, head) && forall a :: a in list ==> a !in pend
      ensures Walking({}, head)
    {
    }

    /** The loop of alt_tick, cut off after any number of turns. */
    method Walk(first: Alarm, plan: Alarm -> Behaviour, turns: nat, ghost marks: map<Alarm, Marking>,
                ghost pool: set<Alarm>)
      returns (alarm: Alarm, ghost t: Trip<Alarm>, ghost fired: seq<bool>)
      requires Stage(Trip(list, [], []), [], first, marks, plan, pool, journal) && Planned(plan, pool)
      modifies this`list, this`journal, head`next, head`previous, pool
      ensures Stage(t, fired, alarm, marks, plan, pool, old(journal)) && t.was == old(list)
      ensures |t.visited| <= turns && (alarm == head || |t.visited| == turns)
    {
      ghost var j0 := journal;
      alarm, t, fired := first, Trip(list, [], []), [];
      var left := turns;
      hide *;
      while alarm != head && left > 0
        invariant Stage(t, fired, alarm, marks, plan, pool, j0)
        invariant t.was == old(list) && |t.visited| + left == turns
        decreases left
      {
        alarm, t, fired := TakeTurn(alarm, plan, t, fired, marks, pool, j0);
        left := left - 1;
      }
    }

    /** What a tick whose loop took the visits `t`, `turns` at most, has done to the alarms that were
        `marks` when it began. `finished` says that the loop has ended.

        The loop ends exactly if no callback takes its own saved successor out of the list for good;
        it then has visited the alarms present at entry, in order, less those stopped before their
        turn, exactly if no callback stopped its own saved successor at all. In any case every
        alarm present at entry and not stopped has had its callback run exactly if its deadline was
        this tick, its reply has set its next deadline, and the list is the newly started alarms in
        front of the old list without the stopped ones. */
    ghost predicate Outcome(finished: bool, t: Trip<Alarm>, fired: seq<bool>, marks: map<Alarm, Marking>,
                            plan: Alarm -> Behaviour, turns: nat, pool: set<Alarm>)
      reads this, Nodes(), pool, Members(t.was)
    {
      && Even(t) && |fired| == |t.acts| && (forall a :: a in t.was ==> a in marks)
      && Distinct(t.was) && Sound(t.was, Flat(t.acts)) && head !in t.was && head !in t.visited
      && Linked() && Known(pool) && (finished <==> NextOf(head, t) == head)
      && (finished ==> NeverStranded(head, t) && Inv())
      && (NeverStranded(head, t) && turns >= Bound(|t.was|, |pool|) ==> finished)
      && (finished ==> (t.visited == Survivors(t.was, Missed(t.was, t.acts)) <==> NeverCut(head, t)))
      && (finished ==> forall a :: a in t.was && a !in Stopped(Flat(t.acts)) ==>
            a in list && Ticked(marks[a], a.Mark(), now, plan(a).reply))
      && list == Added(Flat(t.acts)) + Survivors(t.was, Stopped(Flat(t.acts)))
      && AllRecorded(head, t, fired, marks, plan, tick_rate != 0, now)
      && |t.visited| <= turns && (finished || |t.visited| == turns)
    }

    /** The start of alt_tick. */
    method Begin(plan: Alarm -> Behaviour, ghost pool: set<Alarm>) returns (alarm: Alarm)
      requires Inv() && Known(pool)
      modifies this`nticks, this`now
      ensures now == old(now) + 1
      ensures Stage(Trip(list, [], []), [], alarm, old(Marks(Members(list))), plan, pool, journal)
    {
      FirstEntry();
      hide Stage, Walking, Known, Linked, Inv, First, Alarm.Mark;
      alarm := head.next;
      Advance(head, pool);
      assert Members(list) - {head} == Members(list);
      StageStarts(alarm, plan, pool);
    }

    /** alt_tick, cut off after any number of turns of its loop; `plan` says what each alarm's
        callback does if it runs. */
    method Tick(plan: Alarm -> Behaviour, turns: nat, ghost pool: set<Alarm>)
      returns (finished: bool, ghost t: Trip<Alarm>, ghost fired: seq<bool>)
      requires Inv() && Known(pool) && Planned(plan, pool)
      modifies this`list, this`journal, this`nticks, this`now, head`next, head`previous, pool
      ensures now == old(now) + 1 && t.was == old(list) && Moved(Flat(t.acts))
      ensures Outcome(finished, t, fired, old(Marks(Members(list))), plan, turns, pool)
    {
      ghost var j0, marks := journal, Marks(Members(list));
      hide Stage, Outcome, Walking, Known, Linked, Inv, Planned, Members, Marks, Alarm.Mark, Steps, Flat;
      var alarm := Begin(plan, pool);
      alarm, t, fired := Walk(alarm, plan, turns, marks, pool);
      finished := alarm == head;
      StageOutcome(t, fired, alarm, marks, plan, pool, j0, turns);
    }

    lemma StageOutcome(t: Trip<Alarm>, fired: seq<bool>, alarm: Alarm, marks: map<Alarm, Marking>,
                       plan: Alarm -> Behaviour, pool: set<Alarm>, j0: seq<Op<Alarm>>, turns: nat)
      requires Stage(t, fired, alarm, marks, plan, pool, j0)
      requires |t.visited| <= turns && (alarm == head || |t.visited| == turns)
      ensures Outcome(alarm == head, t, fired, marks, plan, turns, pool)
      ensures Steps(t.was, j0, Flat(t.acts), list, journal)
    {
      hide Stage, Walking, Known, Linked, Inv, Members, Alarm.Mark, Steps, NeverStranded, NeverCut, Flat;
      hide Ticked, AllRecorded, Survivors, Missed, Added, Stopped, Bound;
      StageEnds(t, fired, alarm, marks, plan, pool, j0);
      StageBound(t, fired, alarm, marks, plan, pool, j0);
      if alarm == head {
        StageHome(t, fired, marks, plan, pool, j0);
      }
    }
  }
}
