/** A walk along a circular list that is changed while it is walked (the loop of alt_tick.c): the
    successor is read before each visit, and the visit may take out any entry and put entries in
    front. When does the walk end, and whom does it visit? */
module Rounds {
  import opened Journal

  /** The list at the start, the entries visited, and what happened to the list at each visit. */
  datatype Trip<T> = Trip(was: seq<T>, visited: seq<T>, acts: seq<seq<Op<T>>>)

  ghost predicate Even<T>(t: Trip<T>) { |t.visited| == |t.acts| }

  ghost function Flat<T>(acts: seq<seq<Op<T>>>): seq<Op<T>> {
    if acts == [] then [] else Flat(acts[..|acts| - 1]) + acts[|acts| - 1]
  }

  /** The list when the k-th visit began. */
  ghost function ListAt<T>(t: Trip<T>, k: nat): seq<T>
    requires k <= |t.acts|
  {
    Replay(t.was, Flat(t.acts[..k]))
  }

  ghost function ListNow<T>(t: Trip<T>): seq<T> {
    ListAt(t, |t.acts|)
  }

  function First<T>(l: seq<T>, head: T): T {
    if l == [] then head else l[0]
  }

  /** The entry after c on the circle; an entry that was taken out points to itself. */
  function NextIn<T(==)>(head: T, l: seq<T>, c: T): T {
    if l == [] then c
    else if l[0] == c then First(l[1..], head)
    else NextIn(head, l[1..], c)
  }

  /** The successor saved before the k-th visit. */
  ghost function Saved<T>(head: T, t: Trip<T>, k: nat): T
    requires Even(t) && k < |t.acts|
  {
    NextIn(head, ListAt(t, k), t.visited[k])
  }

  /** The k-th visit took out its own saved successor and did not put it back. */
  ghost predicate StrandedAt<T>(head: T, t: Trip<T>, k: nat)
    requires Even(t) && k < |t.acts|
  {
    Saved(head, t, k) != head && Saved(head, t, k) !in ListAt(t, k + 1)
  }

  /** The k-th visit took out its own saved successor, at least for a while. */
  ghost predicate CutAt<T>(head: T, t: Trip<T>, k: nat)
    requires Even(t) && k < |t.acts|
  {
    Saved(head, t, k) in Stopped(t.acts[k])
  }

  ghost predicate NeverStranded<T>(head: T, t: Trip<T>)
    requires Even(t)
  {
    forall k :: 0 <= k < |t.acts| ==> !StrandedAt(head, t, k)
  }

  ghost predicate NeverCut<T>(head: T, t: Trip<T>)
    requires Even(t)
  {
    forall k :: 0 <= k < |t.acts| ==> !CutAt(head, t, k)
  }

  /** One more visit. */
  ghost function Grown<T>(t: Trip<T>, c: T, ops: seq<Op<T>>): Trip<T> {
    Trip(t.was, t.visited + [c], t.acts + [ops])
  }

  lemma FlatGrows<T>(acts: seq<seq<Op<T>>>, ops: seq<Op<T>>)
    ensures Flat(acts + [ops]) == Flat(acts) + ops
  {
    assert (acts + [ops])[..|acts|] == acts;
  }

  /** A further visit does not change what happened before. */
  lemma GrownBefore<T>(head: T, t: Trip<T>, c: T, ops: seq<Op<T>>, k: nat)
    requires Even(t) && k < |t.acts|
    ensures var t' := Grown(t, c, ops);
      && (StrandedAt(head, t', k) <==> StrandedAt(head, t, k))
      && (CutAt(head, t', k) <==> CutAt(head, t, k))
  {
    var t' := Grown(t, c, ops);
    assert t'.acts[..k] == t.acts[..k] && t'.acts[..k + 1] == t.acts[..k + 1];
  }

  lemma GrownNow<T>(head: T, t: Trip<T>, c: T, ops: seq<Op<T>>)
    requires Even(t)
    ensures var t', k := Grown(t, c, ops), |t.acts|;
      && ListAt(t', k) == ListNow(t) && ListNow(t') == Replay(ListNow(t), ops)
      && Saved(head, t', k) == NextIn(head, ListNow(t), c)
      && (Sound(t'.was, Flat(t'.acts)) <==> Sound(t.was, Flat(t.acts)) && Sound(ListNow(t), ops))
  {
    var t', k := Grown(t, c, ops), |t.acts|;
    assert t'.acts[..k] == t.acts == t.acts[..k] && t'.acts[..k + 1] == t'.acts;
    FlatGrows(t.acts, ops);
    ReplaySuffix(t.was, Flat(t.acts), ops);
  }

  /** How the two conditions grow with the walk. */
  lemma TripGrows<T>(head: T, t: Trip<T>, c: T, ops: seq<Op<T>>)
    requires Even(t)
    ensures var t', next := Grown(t, c, ops), NextIn(head, ListNow(t), c);
      && (NeverStranded(head, t') <==>
            NeverStranded(head, t) && (next == head || next in Replay(ListNow(t), ops)))
      && (NeverCut(head, t') <==> NeverCut(head, t) && next !in Stopped(ops))
  {
    var t', n := Grown(t, c, ops), |t.acts|;
    GrownNow(head, t, c, ops);
    assert ListAt(t', n + 1) == ListNow(t');
    assert t'.acts[n] == ops;
    forall k | 0 <= k < n
      ensures StrandedAt(head, t', k) <==> StrandedAt(head, t, k)
      ensures CutAt(head, t', k) <==> CutAt(head, t, k)
    {
      GrownBefore(head, t, c, ops, k);
    }
    hide StrandedAt, CutAt, ListAt;
    StrandedLast(head, t, c, ops);
    assert NeverStranded(head, t') ==> !StrandedAt(head, t', n);
    assert NeverCut(head, t') ==> !CutAt(head, t', n);
  }

  lemma StrandedLast<T>(head: T, t: Trip<T>, c: T, ops: seq<Op<T>>)
    requires Even(t)
    ensures var t', next := Grown(t, c, ops), NextIn(head, ListNow(t), c);
      && (StrandedAt(head, t', |t.acts|) <==> next != head && next !in Replay(ListNow(t), ops))
      && (CutAt(head, t', |t.acts|) <==> next in Stopped(ops))
  {
    GrownNow(head, t, c, ops);
  }

  // ---- whom the walk visits ----

  /** What is still to be visited after the visits `acts`: each takes the first one, and those that
      are stopped meanwhile drop out. */
  ghost function Remaining<T>(l: seq<T>, acts: seq<seq<Op<T>>>): seq<T> {
    if acts == [] then l
    else
      var r := Remaining(l, acts[..|acts| - 1]);
      if r == [] then [] else Survivors(r[1..], Stopped(acts[|acts| - 1]))
  }

  ghost function Turns<T>(l: seq<T>, acts: seq<seq<Op<T>>>): seq<T> {
    if acts == [] then []
    else
      var init := acts[..|acts| - 1];
      var r := Remaining(l, init);
      Turns(l, init) + if r == [] then [] else [r[0]]
  }

  /** Those stopped while they were waiting for their turn. */
  ghost function Missed<T>(l: seq<T>, acts: seq<seq<Op<T>>>): set<T> {
    if acts == [] then {}
    else
      var init := acts[..|acts| - 1];
      var r := Remaining(l, init);
      Missed(l, init) +
      if r == [] then {} else set a | a in r[1..] && a in Stopped(acts[|acts| - 1])
  }

  /** Turns taken and turns to come are the old list less those stopped before their turn. */
  lemma {:induction false} TurnsAndRest<T>(l: seq<T>, acts: seq<seq<Op<T>>>)
    requires Distinct(l)
    ensures Turns(l, acts) + Remaining(l, acts) == Survivors(l, Missed(l, acts))
    ensures Distinct(Turns(l, acts) + Remaining(l, acts))
    decreases |acts|
  {
    if acts == [] {
      SurvivorsOfNone(l);
      assert [] + l == l;
    } else {
      var init, x := acts[..|acts| - 1], acts[|acts| - 1];
      TurnsAndRest(l, init);
      var t, r := Turns(l, init), Remaining(l, init);
      assert acts == init + [x];
      if r != [] {
        TurnTaken(l, t, r, Missed(l, init), Stopped(x));
      } else {
        assert t + [] == t && Missed(l, init) + {} == Missed(l, init);
      }
    }
  }

  lemma TurnTaken<T>(l: seq<T>, t: seq<T>, r: seq<T>, m: set<T>, gone: set<T>)
    requires Distinct(t + r) && t + r == Survivors(l, m) && r != []
    ensures var m' := m + set a | a in r[1..] && a in gone;
      t + [r[0]] + Survivors(r[1..], gone) == Survivors(l, m')
    ensures Distinct(t + [r[0]] + Survivors(r[1..], gone))
  {
    var d := set a | a in r[1..] && a in gone;
    var front := t + [r[0]];
    assert t + r == front + r[1..];
    FrontOfDistinct(front, r[1..]);
    SurvivorsTwice(l, m, d);
    SurvivorsJoin(front, r[1..], d);
    SurvivorsSame(front, d, {});
    SurvivorsOfNone(front);
    SurvivorsSame(r[1..], d, gone);
    DistinctSurvivors(front + r[1..], d);
  }

  lemma {:induction false} DistinctSurvivors<T>(l: seq<T>, gone: set<T>)
    requires Distinct(l)
    ensures Distinct(Survivors(l, gone))
  {
    if l != [] {
      DistinctSurvivors(l[1..], gone);
      SurvivorsMember(l[1..], gone);
      if l[0] !in gone {
        DistinctCons(l[0], Survivors(l[1..], gone));
      }
    }
  }

  lemma RemainingGrows<T>(l: seq<T>, acts: seq<seq<Op<T>>>, ops: seq<Op<T>>)
    ensures var r := Remaining(l, acts);
      && Remaining(l, acts + [ops]) == (if r == [] then [] else Survivors(r[1..], Stopped(ops)))
      && Turns(l, acts + [ops]) == Turns(l, acts) + if r == [] then [] else [r[0]]
  {
    assert (acts + [ops])[..|acts|] == acts;
  }

  /** On course: visited in turn so far, and about to visit the first of those remaining. */
  ghost predicate OnCourse<T>(head: T, t: Trip<T>, cursor: T) {
    var rest := Remaining(t.was, t.acts);
    t.visited == Turns(t.was, t.acts) && Ends(ListNow(t), rest) && cursor == First(rest, head)
  }

  /** Off course: about to visit, or having visited, one whose turn it is not. */
  ghost predicate OffCourse<T>(head: T, t: Trip<T>, cursor: T) {
    var turns, rest := Turns(t.was, t.acts), Remaining(t.was, t.acts);
    || (t.visited == turns && cursor != head && First(rest, head) != cursor)
    || (|turns| <= |t.visited| && !(turns <= t.visited))
    || (|turns| < |t.visited| && rest == [])
  }

  lemma OnCourseAtFirst<T>(head: T, l: seq<T>)
    ensures OnCourse(head, Trip(l, [], []), First(l, head))
  {
    var none: seq<seq<Op<T>>> := [];
    assert none[..0] == none;
  }

  /** A visit on course stays on course unless it takes out its saved successor. */
  lemma CourseKept<T>(head: T, t: Trip<T>, c: T, ops: seq<Op<T>>)
    requires Even(t) && OnCourse(head, t, c) && c != head
    requires Distinct(ListNow(t)) && Sound(ListNow(t), ops) && head !in ListNow(t)
    ensures var t', next := Grown(t, c, ops), NextIn(head, ListNow(t), c);
      if next in Stopped(ops) then next == head || OffCourse(head, t', next) else OnCourse(head, t', next)
  {
    var list, rest := ListNow(t), Remaining(t.was, t.acts);
    var t' := Grown(t, c, ops);
    GrownNow(head, t, c, ops);
    RemainingGrows(t.was, t.acts, ops);
    NextOfTail(head, list, rest);
    var next := First(rest[1..], head);
    EndsReplay(list, rest, ops);
    SurvivorsJoin([rest[0]], rest[1..], Stopped(ops));
    assert [rest[0]] + rest[1..] == rest;
    TailEnds(Replay(list, ops), Survivors([rest[0]], Stopped(ops)), Survivors(rest[1..], Stopped(ops)));
    FirstSurvivor(head, rest[1..], Stopped(ops));
  }

  lemma TailEnds<T>(list: seq<T>, a: seq<T>, b: seq<T>)
    requires Ends(list, a + b)
    ensures Ends(list, b)
  {
    assert list[|list| - |b|..] == list[|list| - |a + b|..][|a|..];
  }

  lemma FirstSurvivor<T>(head: T, l: seq<T>, gone: set<T>)
    ensures l != [] && l[0] !in gone ==> First(Survivors(l, gone), head) == l[0]
    ensures l != [] && l[0] in gone && l[0] != head ==> First(Survivors(l, gone), head) != l[0]
  {
    SurvivorsMember(l, gone);
    if l != [] && l[0] in gone && Survivors(l, gone) != [] {
      assert Survivors(l, gone)[0] in Survivors(l, gone);
    }
  }

  lemma {:induction false} NextOfTail<T>(head: T, list: seq<T>, rest: seq<T>)
    requires Distinct(list) && Ends(list, rest) && rest != []
    ensures NextIn(head, list, rest[0]) == First(rest[1..], head)
  {
    if |list| == |rest| {
      assert list == rest;
    } else {
      var i := |list| - |rest|;
      assert list[i] == rest[0] && list[0] != list[i];
      assert list[1..][i - 1..] == list[i..];
      NextOfTail(head, list[1..], rest);
    }
  }

  lemma {:induction false} NextOfAbsent<T>(head: T, list: seq<T>, c: T)
    requires c !in list
    ensures NextIn(head, list, c) == c
  {
    if list != [] {
      NextOfAbsent(head, list[1..], c);
    }
  }

  /** Once off course, always off course. */
  lemma CourseLost<T>(head: T, t: Trip<T>, c: T, ops: seq<Op<T>>, next: T)
    requires Even(t) && OffCourse(head, t, c) && c != head
    ensures OffCourse(head, Grown(t, c, ops), next)
  {
    RemainingGrows(t.was, t.acts, ops);
    var turns, rest := Turns(t.was, t.acts), Remaining(t.was, t.acts);
    var turns' := turns + if rest == [] then [] else [rest[0]];
    var visited' := t.visited + [c];
    if t.visited == turns && First(rest, head) != c {
      if rest != [] {
        assert turns'[|turns|] == rest[0] && visited'[|turns|] == c;
      }
    } else if |turns| <= |t.visited| && !(turns <= t.visited) {
      var i :| 0 <= i < |turns| && turns[i] != t.visited[i];
      assert turns'[i] != visited'[i];
    }
  }

  /** A walk that is back at the head visited the old list less those stopped before their turn
      exactly when it never left its course. */
  lemma CourseAtEnd<T>(head: T, t: Trip<T>)
    requires Even(t) && Distinct(t.was) && head !in ListNow(t)
    ensures OnCourse(head, t, head) ==> t.visited == Survivors(t.was, Missed(t.was, t.acts))
    ensures OffCourse(head, t, head) ==> t.visited != Survivors(t.was, Missed(t.was, t.acts))
  {
    TurnsAndRest(t.was, t.acts);
    var turns, rest := Turns(t.was, t.acts), Remaining(t.was, t.acts);
    if OnCourse(head, t, head) {
      TailOf(ListNow(t), rest, head);
      assert turns + [] == turns;
    }
    if OffCourse(head, t, head) {
      assert turns <= turns + rest;
    }
  }

  lemma TailOf<T>(list: seq<T>, rest: seq<T>, head: T)
    requires Ends(list, rest) && head !in list
    ensures First(rest, head) == head <==> rest == []
  {
    if rest != [] {
      assert list[|list| - |rest|] == rest[0];
    }
  }

  // ---- when the walk ends ----

  /** The entries in front of c. */
  function Before<T(==)>(l: seq<T>, c: T): seq<T> {
    if l == [] || l[0] == c then [] else [l[0]] + Before(l[1..], c)
  }

  /** Entries of `pend` that are in the list are still ahead of the walk. */
  ghost predicate Ahead<T>(head: T, list: seq<T>, pend: set<T>, next: T) {
    next == head || next in list ==> forall a :: a in Before(list, next) ==> a !in pend
  }

  lemma {:induction false} BeforeAll<T>(l: seq<T>, c: T)
    ensures c !in l ==> Before(l, c) == l
    ensures |Before(l, c)| <= |l|
    ensures c in l ==> |Before(l, c)| < |l|
    ensures forall a :: a in Before(l, c) ==> a in l
  {
    if l != [] && l[0] != c {
      BeforeAll(l[1..], c);
    }
  }

  lemma AheadAtFirst<T>(head: T, l: seq<T>, pend: set<T>)
    requires head !in l
    ensures Ahead(head, l, pend, First(l, head))
  {
  }

  /** Stepping to the successor leaves one more entry behind. */
  lemma {:induction false} BeforeNext<T>(head: T, l: seq<T>, c: T)
    requires Distinct(l) && c in l && head !in l
    ensures Before(l, NextIn(head, l, c)) == Before(l, c) + [c]
    ensures NextIn(head, l, c) == head || NextIn(head, l, c) in l
  {
    if l[0] == c {
      if |l| > 1 {
        assert l[1..][0] == l[1] && l[0] != l[1];
        assert Before(l[1..], l[1]) == [];
      } else {
        assert l[1..] == [] && Before(l[1..], head) == [];
      }
    } else {
      BeforeNext(head, l[1..], c);
      var next := NextIn(head, l[1..], c);
      assert next != l[0] by {
        if next in l[1..] {
          var i :| 1 <= i < |l| && l[i] == next;
        }
      }
    }
  }

  lemma AheadNext<T>(head: T, list: seq<T>, pend: set<T>, c: T)
    requires Distinct(list) && c in list && head !in list && Ahead(head, list, pend, c)
    ensures Ahead(head, list, pend - {c}, NextIn(head, list, c))
  {
    BeforeNext(head, list, c);
  }

  lemma {:induction false} BeforeWithout<T>(l: seq<T>, a: T, c: T)
    requires a != c
    ensures forall x :: x in Before(Without(l, a), c) ==> x in Before(l, c)
    ensures c in Without(l, a) <==> c in l
  {
    if l != [] && l[0] != c {
      if l[0] == a {
        assert Without(l, a) == l[1..];
      } else {
        BeforeWithout(l[1..], a, c);
        assert Without(l, a)[1..] == Without(l[1..], a);
      }
    }
  }

  lemma {:induction false} AheadReplay<T>(head: T, list: seq<T>, pend: set<T>, next: T, ops: seq<Op<T>>)
    requires Ahead(head, list, pend, next) && Distinct(list) && Sound(list, ops) && head !in list
    requires head !in Started(ops)
    ensures Ahead(head, Replay(list, ops), pend - Started(ops), next) && head !in Replay(list, ops)
    decreases |ops|
  {
    if ops != [] {
      var init, op := ops[..|ops| - 1], ops[|ops| - 1];
      assert ops == init + [op];
      StartedJoin(init, [op]);
      AheadReplay(head, list, pend, next, init);
      ReplaySplits(list, init);
      assert [op][0] == op;
      assert Started([op]) == if op.Enter? then {op.a} else {};
      WithoutMembers(Replay(list, init), op.a);
      AheadApply(head, Replay(list, init), pend - Started(init), next, op);
      assert pend - Started(ops) == (pend - Started(init)) - Started([op]);
    }
  }

  lemma AheadApply<T>(head: T, l: seq<T>, pend: set<T>, next: T, op: Op<T>)
    requires Ahead(head, l, pend, next) && Distinct(l) && head !in l
    requires op.Enter? ==> op.a !in l && op.a != head
    ensures Ahead(head, Apply(l, op), pend - (if op.Enter? then {op.a} else {}), next)
  {
    match op {
      case Enter(a, _) =>
        assert ([a] + l)[1..] == l;
        if next != a {
          assert Before([a] + l, next) == [a] + Before(l, next);
        }
      case Leave(a) =>
        WithoutMembers(l, a);
        if next != a {
          BeforeWithout(l, a, next);
        } else if a == head {
          WithoutAbsent(l, a);
        }
    }
  }

  /** Entries of the old list not yet visited and not started since. */
  ghost function Pending<T>(t: Trip<T>): set<T> {
    set a | a in t.was && a !in t.visited && a !in Started(Flat(t.acts))
  }

  lemma PendingGrows<T>(t: Trip<T>, c: T, ops: seq<Op<T>>)
    ensures Pending(Grown(t, c, ops)) == Pending(t) - {c} - Started(ops)
    ensures |Pending(Grown(t, c, ops))| <= |Pending(t)|
    ensures c in Pending(t) ==> |Pending(Grown(t, c, ops))| < |Pending(t)|
  {
    PendingIs(t, c, ops);
    var p, p' := Pending(t), Pending(Grown(t, c, ops));
    hide Pending, Started;
    Smaller(p', p);
    if c in p {
      Smaller(p', p - {c});
    }
  }

  lemma PendingIs<T>(t: Trip<T>, c: T, ops: seq<Op<T>>)
    ensures Pending(Grown(t, c, ops)) == Pending(t) - {c} - Started(ops)
  {
    FlatGrows(t.acts, ops);
    StartedJoin(Flat(t.acts), ops);
    hide Started, Flat;
  }

  lemma {:induction false} Smaller<T>(a: set<T>, b: set<T>)
    requires a <= b
    ensures |a| <= |b|
  {
    if a != {} {
      var x :| x in a;
      Smaller(a - {x}, b - {x});
    }
  }

  lemma {:induction false} DistinctFits<T>(l: seq<T>, pool: set<T>)
    requires Distinct(l) && forall a :: a in l ==> a in pool
    ensures |l| <= |pool|
  {
    if l != [] {
      assert l[0] in pool;
      forall a | a in l[1..] ensures a in pool - {l[0]} {
      }
      DistinctFits(l[1..], pool - {l[0]});
    }
  }

  /** Turns that a walk over at most n entries may still take: a visit to a pending entry may change
      the list, any other brings the walk nearer to the head. */
  ghost function Rank<T>(pending: nat, list: seq<T>, c: T, n: nat): int {
    pending * (n + 1) + |list| - |Before(list, c)|
  }

  ghost function Bound(l: nat, n: nat): nat { l * (n + 1) + l }

  lemma RankPending<T>(p: nat, p': nat, list: seq<T>, c: T, list': seq<T>, c': T, n: nat)
    requires p' < p && |list'| <= n && c in list
    ensures Rank(p', list', c', n) < Rank(p, list, c, n)
  {
    BeforeAll(list, c);
    hide Before;
    Fewer(p' + 1, p, n + 1);
  }

  lemma Fewer(k: nat, l: nat, m: nat)
    requires k <= l
    ensures k * m <= l * m
  {
    assert (l - k) * m >= 0;
  }

  lemma RankOther<T>(head: T, p: nat, p': nat, list: seq<T>, c: T, n: nat)
    requires p' <= p && Distinct(list) && c in list && head !in list
    ensures Rank(p', list, NextIn(head, list, c), n) < Rank(p, list, c, n)
  {
    BeforeNext(head, list, c);
    hide Before, NextIn;
    Fewer(p', p, n + 1);
  }

  lemma RankAtFirst<T>(head: T, l: seq<T>, p: nat, n: nat)
    requires p <= |l| && head !in l
    ensures Rank(p, l, First(l, head), n) <= Bound(|l|, n)
  {
    Fewer(p, |l|, n + 1);
  }

  /** Away from the head there is a turn to take. */
  lemma RankPositive<T>(p: nat, list: seq<T>, c: T, n: nat)
    requires c in list
    ensures Rank(p, list, c, n) > 0
  {
    BeforeAll(list, c);
    hide Before;
    Fewer(0, p, n + 1);
  }

  // ---- the whole walk ----

  /** A walk that has not been stranded: its place in the list, what it still has ahead, whether it
      is on course, and how long it can still take. */
  ghost predicate Underway<T>(head: T, t: Trip<T>, cursor: T, n: nat)
    requires Even(t)
  {
    && (cursor == head || cursor in ListNow(t))
    && Ahead(head, ListNow(t), Pending(t), cursor)
    && (if NeverCut(head, t) then OnCourse(head, t, cursor) else OffCourse(head, t, cursor))
    && Rank(|Pending(t)|, ListNow(t), cursor, n) + |t.visited| <= Bound(|t.was|, n)
  }

  /** Setting out. */
  lemma UnderwayStart<T>(head: T, l: seq<T>, n: nat)
    requires Distinct(l) && head !in l
    ensures var t := Trip(l, [], []);
      Underway(head, t, First(l, head), n) && NeverStranded(head, t) && ListNow(t) == l
  {
    var t := Trip(l, [], []);
    assert t.acts[..0] == [];
    OnCourseAtFirst(head, l);
    AheadAtFirst(head, l, Pending(t));
    MembersFit(l, Pending(t));
    RankAtFirst(head, l, |Pending(t)|, n);
  }

  lemma {:induction false} MembersFit<T>(l: seq<T>, s: set<T>)
    requires forall a :: a in s ==> a in l
    ensures |s| <= |l|
  {
    if l == [] {
      assert s == {};
    } else {
      MembersFit(l[1..], s - {l[0]});
      assert s <= (s - {l[0]}) + {l[0]};
      Smaller(s, (s - {l[0]}) + {l[0]});
    }
  }

  /** One turn. A visit to an entry that is not pending must leave the list alone. */
  lemma UnderwayStep<T>(head: T, t: Trip<T>, c: T, ops: seq<Op<T>>, n: nat)
    requires Even(t) && Underway(head, t, c, n) && c != head
    requires Distinct(ListNow(t)) && head !in ListNow(t) && Sound(ListNow(t), ops)
    requires head !in Started(ops) && head !in Stopped(ops) && |Replay(ListNow(t), ops)| <= n
    requires c !in Pending(t) ==> ops == []
    ensures var t', next := Grown(t, c, ops), NextIn(head, ListNow(t), c);
      && ListNow(t') == Replay(ListNow(t), ops)
      && (NeverStranded(head, t') <==> NeverStranded(head, t) && (next == head || next in ListNow(t')))
      && (next == head || next in ListNow(t))
      && (next == head || next in ListNow(t') ==> Underway(head, t', next, n))
  {
    hide ListNow, Ahead, Pending, OnCourse, OffCourse, NeverCut, NeverStranded, Rank, Bound;
    hide Started, Stopped, Replay, Sound, Before, NextIn, Distinct;
    var list, t', next := ListNow(t), Grown(t, c, ops), NextIn(head, ListNow(t), c);
    GrownNow(head, t, c, ops);
    TripGrows(head, t, c, ops);
    PendingGrows(t, c, ops);
    BeforeNext(head, list, c);
    AheadNext(head, list, Pending(t), c);
    AheadReplay(head, list, Pending(t) - {c}, next, ops);
    StepRank(head, list, |Pending(t)|, |Pending(t')|, c, c in Pending(t), ops, n);
    StepCourse(head, t, c, ops);
  }

  lemma StepRank<T>(head: T, list: seq<T>, p: nat, p': nat, c: T, pending: bool, ops: seq<Op<T>>, n: nat)
    requires p' <= p && (if pending then p' < p else ops == []) && |Replay(list, ops)| <= n
    requires Distinct(list) && c in list && head !in list
    ensures Rank(p', Replay(list, ops), NextIn(head, list, c), n) < Rank(p, list, c, n)
  {
    if pending {
      RankPending(p, p', list, c, Replay(list, ops), NextIn(head, list, c), n);
    } else {
      RankOther(head, p, p', list, c, n);
    }
  }

  lemma StepCourse<T>(head: T, t: Trip<T>, c: T, ops: seq<Op<T>>)
    requires Even(t) && c != head && (if NeverCut(head, t) then OnCourse(head, t, c) else OffCourse(head, t, c))
    requires Distinct(ListNow(t)) && head !in ListNow(t) && Sound(ListNow(t), ops) && head !in Stopped(ops)
    ensures var t', next := Grown(t, c, ops), NextIn(head, ListNow(t), c);
      if NeverCut(head, t') then OnCourse(head, t', next) else OffCourse(head, t', next)
  {
    TripGrows(head, t, c, ops);
    hide OnCourse, OffCourse, NeverCut, ListNow, Stopped;
    if NeverCut(head, t) {
      CourseKept(head, t, c, ops);
    } else {
      CourseLost(head, t, c, ops, NextIn(head, ListNow(t), c));
    }
  }

  /** A walk over at most n entries that has taken Bound turns is back at the head. */
  lemma UnderwayBound<T>(head: T, t: Trip<T>, c: T, n: nat)
    requires Even(t) && Underway(head, t, c, n) && |t.visited| >= Bound(|t.was|, n)
    ensures c == head
  {
    if c != head {
      RankPositive(|Pending(t)|, ListNow(t), c, n);
    }
  }

  /** Back at the head: nothing in the list is pending, and the entries visited are the old list less
      those stopped before their turn exactly if no visit took out its saved successor. */
  lemma UnderwayEnd<T>(head: T, t: Trip<T>, n: nat)
    requires Even(t) && Underway(head, t, head, n) && Distinct(t.was) && head !in ListNow(t)
    ensures forall a :: a in ListNow(t) ==> a !in Pending(t)
    ensures t.visited == Survivors(t.was, Missed(t.was, t.acts)) <==> NeverCut(head, t)
  {
    BeforeAll(ListNow(t), head);
    CourseAtEnd(head, t);
  }
}
