/** What a run of list operations does to the order of a list whose insertions all go to the
    front (alt_llist.h). */
module Journal {

  /** Put an entry in front, with the deadline it is started for, or take one out. */
  datatype Op<T> = Enter(a: T, due: nat) | Leave(a: T)

  function Without<T(==)>(l: seq<T>, a: T): seq<T> {
    if l == [] then []
    else if l[0] == a then l[1..]
    else [l[0]] + Without(l[1..], a)
  }

  function Apply<T(==)>(l: seq<T>, op: Op<T>): seq<T> {
    match op
    case Enter(a, _) => [a] + l
    case Leave(a) => Without(l, a)
  }

  function Replay<T(==)>(l: seq<T>, ops: seq<Op<T>>): seq<T> {
    if ops == [] then l
    else Apply(Replay(l, ops[..|ops| - 1]), ops[|ops| - 1])
  }

  ghost predicate Distinct<T>(l: seq<T>) {
    forall i, j :: 0 <= i < j < |l| ==> l[i] != l[j]
  }

  /** No operation starts an alarm that is already in the list. */
  ghost predicate Sound<T>(l: seq<T>, ops: seq<Op<T>>) {
    ops == [] || (Sound(l, ops[..|ops| - 1]) &&
      (ops[|ops| - 1].Enter? ==> ops[|ops| - 1].a !in Replay(l, ops[..|ops| - 1])))
  }

  ghost function Stopped<T>(ops: seq<Op<T>>): set<T> {
    set i | 0 <= i < |ops| && ops[i].Leave? :: ops[i].a
  }

  /** The members of the old list that were never stopped, in their old order. */
  ghost function Survivors<T>(l: seq<T>, gone: set<T>): seq<T> {
    if l == [] then []
    else (if l[0] in gone then [] else [l[0]]) + Survivors(l[1..], gone)
  }

  lemma {:induction false} WithoutAt<T>(l: seq<T>, i: nat)
    requires i < |l| && Distinct(l)
    ensures Without(l, l[i]) == l[..i] + l[i + 1..]
  {
    if i > 0 {
      WithoutAt(l[1..], i - 1);
      assert l[1..][i - 1] == l[i] && l[1..][i..] == l[i + 1..];
      assert l[..i] == [l[0]] + l[1..][..i - 1];
      hide Distinct;
    }
  }

  lemma {:induction false} WithoutAbsent<T>(l: seq<T>, a: T)
    requires a !in l
    ensures Without(l, a) == l
  {
    if l != [] {
      WithoutAbsent(l[1..], a);
    }
  }

  lemma {:induction false} WithoutFront<T>(front: seq<T>, rest: seq<T>, a: T)
    requires a !in rest
    ensures Without(front + rest, a) == Without(front, a) + rest
  {
    if front == [] {
      WithoutAbsent(rest, a);
      assert front + rest == rest;
    } else {
      WithoutFront(front[1..], rest, a);
      assert (front + rest)[1..] == front[1..] + rest;
    }
  }

  lemma WithoutMember<T>(l: seq<T>, a: T, x: T)
    requires Distinct(l)
    ensures x in Without(l, a) <==> x in l && x != a
  {
  }

  lemma DistinctCons<T>(x: T, s: seq<T>)
    requires Distinct(s) && x !in s
    ensures Distinct([x] + s)
  {
  }

  lemma {:induction false} WithoutMembers<T>(l: seq<T>, a: T)
    requires Distinct(l)
    ensures Distinct(Without(l, a)) && a !in Without(l, a)
    ensures forall x :: x in Without(l, a) <==> x in l && x != a
  {
    if l != [] {
      assert forall x :: x in l <==> x == l[0] || x in l[1..];
      WithoutMembers(l[1..], a);
      if l[0] != a {
        DistinctCons(l[0], Without(l[1..], a));
      }
    }
  }

  lemma {:induction false} SurvivorsMember<T>(l: seq<T>, gone: set<T>)
    ensures forall x :: x in Survivors(l, gone) <==> x in l && x !in gone
  {
    if l != [] {
      SurvivorsMember(l[1..], gone);
      assert forall x :: x in l <==> x == l[0] || x in l[1..];
    }
  }

  lemma {:induction false} SurvivorsOfNone<T>(l: seq<T>)
    ensures Survivors(l, {}) == l
  {
    if l != [] {
      SurvivorsOfNone(l[1..]);
    }
  }

  lemma {:induction false} SurvivorsOfMore<T>(l: seq<T>, gone: set<T>, a: T)
    requires Distinct(l)
    ensures Survivors(l, gone + {a}) == Without(Survivors(l, gone), a)
  {
    if l != [] {
      SurvivorsOfMore(l[1..], gone, a);
      var tail := Survivors(l[1..], gone);
      assert Survivors(l, gone) == if l[0] in gone then tail else [l[0]] + tail;
      if l[0] == a {
        assert a !in l[1..];
        SurvivorsMember(l[1..], gone);
        WithoutAbsent(tail, a);
        assert ([a] + tail)[1..] == tail;
      } else {
        assert ([l[0]] + tail)[1..] == tail;
      }
    }
  }

  lemma StoppedOne<T>(ops: seq<Op<T>>, op: Op<T>)
    ensures Stopped(ops + [op]) == Stopped(ops) + (if op.Leave? then {op.a} else {})
  {
    var more := ops + [op];
    assert forall i :: 0 <= i < |ops| ==> more[i] == ops[i];
    assert more[|ops|] == op;
  }

  /** The alarms started by the operations and not stopped since, newest first. */
  ghost function Added<T>(ops: seq<Op<T>>): seq<T> {
    if ops == [] then []
    else Apply(Added(ops[..|ops| - 1]), ops[|ops| - 1])
  }

  /** The whole effect of a run of operations: the new alarms in front, then the old list in its
      old order without the stopped ones. */
  lemma {:induction false} ReplaySplits<T>(l: seq<T>, ops: seq<Op<T>>)
    requires Distinct(l) && Sound(l, ops)
    ensures Replay(l, ops) == Added(ops) + Survivors(l, Stopped(ops))
    ensures Distinct(Replay(l, ops))
    decreases |ops|
  {
    if ops == [] {
      SurvivorsOfNone(l);
      assert Stopped(ops) == {};
    } else {
      var init, op := ops[..|ops| - 1], ops[|ops| - 1];
      assert ops == init + [op];
      ReplaySplits(l, init);
      StoppedOne(init, op);
      var added, kept := Added(init), Survivors(l, Stopped(init));
      if op.Enter? {
        assert Stopped(ops) == Stopped(init);
        assert [op.a] + (added + kept) == ([op.a] + added) + kept;
        DistinctCons(op.a, added + kept);
      } else {
        SurvivorsOfMore(l, Stopped(init), op.a);
        WithoutMembers(added + kept, op.a);
        WithoutEither(added, kept, op.a);
      }
    }
  }

  lemma WithoutEither<T>(front: seq<T>, rest: seq<T>, a: T)
    requires Distinct(front + rest)
    ensures Without(front + rest, a) == Without(front, a) + Without(rest, a)
  {
    FrontOfDistinct(front, rest);
    if a in front {
      WithoutFront(front, rest, a);
      WithoutAbsent(rest, a);
    } else {
      WithoutAbsent(front, a);
      WithoutBack(front, rest, a);
    }
  }

  lemma FrontOfDistinct<T>(front: seq<T>, rest: seq<T>)
    requires Distinct(front + rest)
    ensures Distinct(front) && Distinct(rest)
    ensures forall x :: x in front ==> x !in rest
  {
    var l := front + rest;
    assert forall i :: 0 <= i < |front| ==> l[i] == front[i];
    assert forall i :: 0 <= i < |rest| ==> l[|front| + i] == rest[i];
  }

  lemma {:induction false} WithoutBack<T>(front: seq<T>, rest: seq<T>, a: T)
    requires a !in front
    ensures Without(front + rest, a) == front + Without(rest, a)
  {
    if front == [] {
      assert front + rest == rest;
    } else {
      WithoutBack(front[1..], rest, a);
      assert (front + rest)[1..] == front[1..] + rest;
    }
  }

  /** A journal that has produced `l` and a continuation of it. */
  ghost predicate Journaled<T>(l: seq<T>, journal: seq<Op<T>>) {
    l == Replay([], journal) && Sound([], journal)
  }

  lemma {:induction false} ReplaySuffix<T>(l: seq<T>, before: seq<Op<T>>, ops: seq<Op<T>>)
    ensures Sound(l, before + ops) <==> Sound(l, before) && Sound(Replay(l, before), ops)
    ensures Replay(l, before + ops) == Replay(Replay(l, before), ops)
    decreases |ops|
  {
    if ops == [] {
      assert before + ops == before;
    } else {
      var all, init := before + ops, ops[..|ops| - 1];
      assert all[..|all| - 1] == before + init;
      ReplaySuffix(l, before, init);
    }
  }

  /** The alarms started by the operations. */
  ghost function Started<T>(ops: seq<Op<T>>): set<T> {
    set i | 0 <= i < |ops| && ops[i].Enter? :: ops[i].a
  }

  lemma StartedJoin<T>(x: seq<Op<T>>, y: seq<Op<T>>)
    ensures Started(x + y) == Started(x) + Started(y)
    ensures Stopped(x + y) == Stopped(x) + Stopped(y)
  {
    var z := x + y;
    assert forall i :: 0 <= i < |x| ==> z[i] == x[i];
    assert forall i :: 0 <= i < |y| ==> z[|x| + i] == y[i];
  }

  /** A registered alarm that is not stopped stays registered and cannot be started. */
  lemma {:induction false} StaysIn<T>(l: seq<T>, ops: seq<Op<T>>, a: T)
    requires Distinct(l) && Sound(l, ops) && a in l && a !in Stopped(ops)
    ensures a in Replay(l, ops) && a !in Started(ops)
    decreases |ops|
  {
    if ops != [] {
      var init, op := ops[..|ops| - 1], ops[|ops| - 1];
      assert ops == init + [op];
      StartedJoin(init, [op]);
      assert op.Leave? ==> [op][0].a in Stopped([op]);
      StaysIn(l, init, a);
      ReplaySplits(l, init);
      WithoutMembers(Replay(l, init), op.a);
      assert forall x :: x in Started([op]) ==> x == op.a && op.Enter?;
    }
  }

  /** Only what was there or has been started can be registered. */
  lemma {:induction false} ComesFrom<T>(l: seq<T>, ops: seq<Op<T>>, a: T)
    requires Distinct(l) && Sound(l, ops) && a in Replay(l, ops)
    ensures a in l || a in Started(ops)
    decreases |ops|
  {
    if ops != [] {
      var init, op := ops[..|ops| - 1], ops[|ops| - 1];
      assert ops == init + [op];
      StartedJoin(init, [op]);
      assert op.Enter? ==> [op][0].a in Started([op]);
      ReplaySplits(l, init);
      WithoutMembers(Replay(l, init), op.a);
      if a in Replay(l, init) {
        ComesFrom(l, init, a);
      }
    }
  }

  /** The deadline that `a` was last started for. */
  ghost function FirstDue<T>(ops: seq<Op<T>>, a: T): nat {
    if ops == [] then 0
    else if ops[|ops| - 1].Enter? && ops[|ops| - 1].a == a then ops[|ops| - 1].due
    else FirstDue(ops[..|ops| - 1], a)
  }

  lemma FirstDueNext<T>(ops: seq<Op<T>>, op: Op<T>, a: T)
    ensures FirstDue(ops + [op], a) == if op.Enter? && op.a == a then op.due else FirstDue(ops, a)
  {
    assert (ops + [op])[..|ops|] == ops;
  }

  /** What is registered in the end and was not started by the operations was there before and was
      not stopped. */
  lemma {:induction false} StayedIn<T>(l: seq<T>, ops: seq<Op<T>>, a: T)
    requires Distinct(l) && Sound(l, ops) && a in Replay(l, ops) && a !in Started(ops)
    ensures a in l && a !in Stopped(ops)
    decreases |ops|
  {
    if ops != [] {
      var init, op := ops[..|ops| - 1], ops[|ops| - 1];
      assert ops == init + [op];
      StartedJoin(init, [op]);
      assert op.Enter? ==> [op][0].a in Started([op]);
      ReplaySplits(l, init);
      WithoutMembers(Replay(l, init), op.a);
      StayedIn(l, init, a);
      assert forall x :: x in Stopped([op]) ==> x == op.a && op.Leave?;
    }
  }

  /** If all operations put in for deadlines after `now`, so does the last one for each alarm. */
  lemma {:induction false} FirstDueAfter<T>(before: seq<Op<T>>, ops: seq<Op<T>>, a: T, now: nat)
    requires a in Started(ops) && forall i :: 0 <= i < |ops| && ops[i].Enter? ==> ops[i].due > now
    ensures FirstDue(before + ops, a) > now
    decreases |ops|
  {
    var init, op := ops[..|ops| - 1], ops[|ops| - 1];
    assert ops == init + [op] && before + ops == (before + init) + [op];
    FirstDueNext(before + init, op, a);
    if !(op.Enter? && op.a == a) {
      StartedJoin(init, [op]);
      FirstDueAfter(before, init, a, now);
    }
  }

  lemma {:induction false} FirstDueSame<T>(before: seq<Op<T>>, ops: seq<Op<T>>, a: T)
    requires a !in Started(ops)
    ensures FirstDue(before + ops, a) == FirstDue(before, a)
    decreases |ops|
  {
    if ops == [] {
      assert before + ops == before;
    } else {
      var init, op := ops[..|ops| - 1], ops[|ops| - 1];
      assert ops == init + [op] && before + ops == (before + init) + [op];
      FirstDueNext(before + init, op, a);
      StartedJoin(init, [op]);
      assert op.Enter? ==> [op][0].a in Started([op]);
      FirstDueSame(before, init, a);
    }
  }

  // ---- the tail of a list ----

  ghost predicate Ends<T>(list: seq<T>, rest: seq<T>) {
    |rest| <= |list| && list[|list| - |rest|..] == rest
  }

  lemma {:induction false} SurvivorsJoin<T>(a: seq<T>, b: seq<T>, gone: set<T>)
    ensures Survivors(a + b, gone) == Survivors(a, gone) + Survivors(b, gone)
  {
    if a == [] {
      assert a + b == b;
    } else {
      assert (a + b)[1..] == a[1..] + b;
      SurvivorsJoin(a[1..], b, gone);
    }
  }

  /** What still has to be visited keeps its order and its place at the end of the list. */
  lemma EndsReplay<T>(list: seq<T>, rest: seq<T>, ops: seq<Op<T>>)
    requires Ends(list, rest) && Distinct(list) && Sound(list, ops)
    ensures Ends(Replay(list, ops), Survivors(rest, Stopped(ops)))
  {
    var front := list[..|list| - |rest|];
    assert list == front + rest;
    SurvivorsJoin(front, rest, Stopped(ops));
    ReplaySplits(list, ops);
  }

  lemma {:induction false} SurvivorsTwice<T>(l: seq<T>, gone: set<T>, more: set<T>)
    ensures Survivors(Survivors(l, gone), more) == Survivors(l, gone + more)
  {
    if l != [] {
      SurvivorsTwice(l[1..], gone, more);
      SurvivorsJoin(if l[0] in gone then [] else [l[0]], Survivors(l[1..], gone), more);
      assert Survivors([l[0]], more) == if l[0] in more then [] else [l[0]];
    }
  }

  lemma {:induction false} SurvivorsSame<T>(l: seq<T>, gone: set<T>, gone': set<T>)
    requires forall x :: x in l ==> (x in gone <==> x in gone')
    ensures Survivors(l, gone) == Survivors(l, gone')
  {
    if l != [] {
      SurvivorsSame(l[1..], gone, gone');
    }
  }
}
