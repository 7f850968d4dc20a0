/** alt_busy_sleep: a calibrated delay made of countdown loops of at most INT_MAX iterations, and how
    often they go round in all. */
module BusySleep {
  import opened Words
  import opened Division

  /** addi -1; bne: counts a word down to zero, all the way round from zero. */
  function BneLoop(start: u32): nat {
    if start == 0 then TWO32 else start
  }

  /** addi -1; bgt: goes round again only while the signed counter stays positive; the least word wraps
      to the greatest. */
  function BgtLoop(start: u32): nat {
    if Signed(start) > 1 || start == 0x8000_0000 then start else 1
  }

  method CountdownBne(start: u32) returns (rounds: nat)
    ensures rounds == BneLoop(start)
  {
    var r: u32 := U32(start - 1);
    rounds := 1;
    while r != 0
      invariant rounds + r == BneLoop(start)
      decreases r
    {
      r := U32(r - 1);
      rounds := rounds + 1;
    }
  }

  method CountdownBgt(start: u32) returns (rounds: nat)
    ensures rounds == BgtLoop(start)
  {
    var r: u32 := U32(start - 1);
    rounds := 1;
    while Signed(r) > 0
      invariant if BgtLoop(start) > 1 then rounds + r == start && r < 0x8000_0000 else rounds == 1 && Signed(r) <= 0
      decreases Signed(r)
    {
      r := U32(r - 1);
      rounds := rounds + 1;
    }
  }

  /** Loop iterations per microsecond; at most 1431 for any 32-bit frequency. */
  type PerMicro = k: nat | 0 < k <= 1431 witness 8

  /** Microseconds in one full countdown from INT_MAX. */
  function Chunk(k: PerMicro): (c: nat)
    ensures c >= 1_500_000 && c * k <= INT_MAX < c * k + k
  {
    var c := Quot(INT_MAX, k);
    DivMod(INT_MAX, k);
    ChunkBound(c, k);
    c
  }

  lemma ChunkBound(c: nat, k: nat)
    requires 0 < k <= 1431 && INT_MAX < c * k + k
    ensures c >= 1_500_000
  {
  }

  /** The total number of loop iterations for a delay of us microseconds. */
  function Iterations(us: u32, k: PerMicro): nat {
    var c := Chunk(k);
    if Quot(us, c) == 0 then BgtLoop(U32(us * k))
    else Quot(us, c) * INT_MAX + BneLoop(U32(Rem(us, c) * k))
  }

  /** alt_busy_sleep on a processor with cycles_per_loop * 10^6 <= freq. */
  method Sleep(us: u32, freq: u32, tiny: bool) returns (iterations: nat)
    requires freq >= if tiny then 9_000_000 else 3_000_000
    ensures var k := if tiny then freq / 9_000_000 else freq / 3_000_000;
      0 < k <= 1431 && iterations == Iterations(us, k)
  {
    var k: PerMicro := if tiny then freq / 9_000_000 else freq / 3_000_000;
    var chunk := Chunk(k);
    var big_loops := Quot(us, chunk);
    ghost var rest := Rem(us, chunk);
    DivMod(us, chunk);
    LastCountFits(us, k);
    hide *;
    if big_loops != 0 {
      var left;
      iterations, left := BigLoops(us, chunk, big_loops, rest);
      var last := CountdownBne(U32(left * k));
      iterations := iterations + last;
    } else {
      iterations := CountdownBgt(U32(us * k));
    }
    IterationsAre(us, k);
  }

  /** The full countdowns. */
  method BigLoops(us: nat, chunk: nat, big_loops: nat, ghost rest: nat) returns (iterations: nat, left: nat)
    requires us == big_loops * chunk + rest
    ensures iterations == big_loops * INT_MAX && left == rest
  {
    iterations, left := 0, us;
    hide *;
    for i := 0 to big_loops
      invariant Counting(i, big_loops, chunk, rest, iterations, left)
    {
      CountingOn(i, big_loops, chunk, rest, iterations, left);
      var full := CountdownBne(INT_MAX);
      FullCount();
      iterations := iterations + full;
      left := left - chunk;
    }
    CountingEnds(big_loops, chunk, rest, iterations, left);
  }

  ghost predicate Counting(i: nat, big_loops: nat, chunk: nat, rest: nat, iterations: nat, left: nat) {
    i <= big_loops && iterations == i * INT_MAX && left == (big_loops - i) * chunk + rest
  }

  lemma CountingOn(i: nat, big_loops: nat, chunk: nat, rest: nat, iterations: nat, left: nat)
    requires Counting(i, big_loops, chunk, rest, iterations, left) && i < big_loops
    ensures left >= chunk && Counting(i + 1, big_loops, chunk, rest, iterations + INT_MAX, left - chunk)
  {
    Times(0, big_loops - i - 1, chunk);
    assert (big_loops - i) * chunk == (big_loops - i - 1) * chunk + chunk;
  }

  lemma CountingEnds(big_loops: nat, chunk: nat, rest: nat, iterations: nat, left: nat)
    requires Counting(big_loops, big_loops, chunk, rest, iterations, left)
    ensures iterations == big_loops * INT_MAX && left == rest
  {
  }

  lemma FullCount()
    ensures BneLoop(INT_MAX) == INT_MAX
  {
  }

  lemma IterationsAre(us: u32, k: PerMicro)
    ensures var c := Chunk(k);
      Iterations(us, k) ==
        if Quot(us, c) == 0 then BgtLoop(U32(us * k)) else Quot(us, c) * INT_MAX + BneLoop(U32(Rem(us, c) * k))
  {
  }

  /** What is left for the last countdown never passes INT_MAX. */
  lemma LastCountFits(us: u32, k: PerMicro)
    ensures Rem(us, Chunk(k)) * k <= INT_MAX - k
  {
    var c := Chunk(k);
    DivMod(us, c);
    hide Quot, Rem, Chunk;
    Times(Rem(us, c) + 1, c, k);
  }

  /** us in terms of full countdowns and a rest. */
  lemma Total(us: u32, k: PerMicro)
    ensures var c := Chunk(k);
      us * k == Quot(us, c) * (c * k) + Rem(us, c) * k
  {
  }

  /** Iterations counted from quotient and rest. */
  lemma Counted(us: u32, k: PerMicro)
    ensures var c := Chunk(k);
      var q, r := Quot(us, c), Rem(us, c);
      Iterations(us, k) ==
        if q == 0 then if us == 0 then 1 else us * k
        else q * INT_MAX + if r == 0 then TWO32 else r * k
  {
    var c := Chunk(k);
    LastCountFits(us, k);
    DivMod(us, c);
    var q, r := Quot(us, c), Rem(us, c);
    hide Quot, Rem, Chunk;
    if r > 0 {
      Times(1, r, k);
    }
  }

  /** The delay is never too short. */
  lemma NeverShort(us: u32, k: PerMicro)
    ensures Iterations(us, k) >= us * k
  {
    var c := Chunk(k);
    Counted(us, k);
    Total(us, k);
    var q, r := Quot(us, c), Rem(us, c);
    hide Quot, Rem, Chunk, Iterations;
    Excess(q, c, k);
  }

  lemma Excess(q: nat, c: nat, k: nat)
    requires c * k <= INT_MAX < c * k + k
    ensures q * (c * k) <= q * INT_MAX
    ensures q * INT_MAX <= q * (c * k) + q * (k - 1)
    ensures q > 0 ==> q * INT_MAX < q * (c * k) + q * k
  {
    var s := INT_MAX - c * k;
    assert q * INT_MAX == q * (c * k) + q * s;
    Commute(q, s);
    Commute(q, k - 1);
    Commute(q, k);
    Times(s, k - 1, q);
    if q > 0 {
      assert k * q == (k - 1) * q + q;
    }
  }

  lemma Commute(a: nat, b: nat)
    ensures a * b == b * a
  {
  }

  /** With at least one full countdown the delay is too long by less than big_loops microseconds
      exactly when something is left over: a last countdown started at zero goes all the way
      round. */
  lemma NotTooLongIff(us: u32, k: PerMicro)
    requires us >= Chunk(k)
    ensures var c := Chunk(k);
      Iterations(us, k) < us * k + Quot(us, c) * k <==> Rem(us, c) != 0
  {
    var c := Chunk(k);
    Counted(us, k);
    Total(us, k);
    QuotZero(us, c);
    DivMod(us, c);
    var q, r := Quot(us, c), Rem(us, c);
    hide Quot, Rem, Chunk, Iterations;
    Excess(q, c, k);
    if r == 0 {
      FewChunks(us, q, c, r, k);
    }
  }

  lemma FewChunks(us: u32, q: nat, c: nat, r: nat, k: nat)
    requires us == q * c + r && c >= 1_500_000 && k <= 1431
    ensures q * k <= TWO32
  {
    if q > 2864 {
      Commute(q, c);
      Times(1_500_000, c, q);
    }
    Times(q, 2864, k);
  }

  /** This board: 80 MHz and a "tiny" core give eight iterations a microsecond, and a delay of
      268435455 microseconds ends in a countdown from zero. */
  lemma BoardExample()
    ensures 80_000_000 / 9_000_000 == 8
    ensures Iterations(268_435_455, 8) == INT_MAX + TWO32
  {
  }
}
