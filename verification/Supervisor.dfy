/** The board supervisor (main.c, adv7613_regs.h): layer debouncing, the DisplayPort hot-plug
    retry and the chip selects of the two HDMI receivers, over an endless, restartable loop. */
module Debounce {

  const LAYER_TIMEOUT: int := 3

  /** One look at a layer's input: is it switched on, and is its signal stable. */
  datatype Sample = Sample(control: bool, status: bool)

  predicate IsGood(s: Sample) { s.control && s.status }

  predicate IsBad(s: Sample) { s.control && !s.status }

  /** What the debouncer does to the mixer's Enable bit. */
  datatype Write = NoWrite | CopyRequest | Disable

  function TimerStep(timer: nat, s: Sample): nat {
    if IsGood(s) then if timer < LAYER_TIMEOUT then timer + 1 else timer
    else if IsBad(s) then if timer > 0 then timer - 1 else timer
    else timer
  }

  function WriteOf(timer: nat, s: Sample): Write {
    if IsGood(s) && timer >= LAYER_TIMEOUT then CopyRequest
    else if IsBad(s) && timer == 0 then Disable
    else NoWrite
  }

  function TimerAfter(timer: nat, ss: seq<Sample>): nat {
    if ss == [] then timer else TimerStep(TimerAfter(timer, ss[..|ss| - 1]), ss[|ss| - 1])
  }

  /** Good samples less bad ones. */
  function Balance(ss: seq<Sample>): int {
    if ss == [] then 0
    else Balance(ss[..|ss| - 1]) + (if IsGood(ss[|ss| - 1]) then 1 else if IsBad(ss[|ss| - 1]) then -1 else 0)
  }

  lemma {:induction false} TimerInRange(timer: nat, ss: seq<Sample>)
    requires timer <= LAYER_TIMEOUT
    ensures TimerAfter(timer, ss) <= LAYER_TIMEOUT
  {
    if ss != [] {
      TimerInRange(timer, ss[..|ss| - 1]);
    }
  }

  lemma WindowGrows(ss: seq<Sample>, k: nat)
    requires ss != [] && k < |ss|
    ensures var init := ss[..|ss| - 1];
      ss[k..] != [] && ss[k..][..|ss[k..]| - 1] == init[k..] && ss[k..][|ss[k..]| - 1] == ss[|ss| - 1]
  {
  }

  /** From a full timer, a deficit at the end is the deficit of some final window. */
  lemma {:induction false} WindowFromFull(ss: seq<Sample>) returns (k: nat)
    ensures k <= |ss| && Balance(ss[k..]) <= TimerAfter(LAYER_TIMEOUT, ss) - LAYER_TIMEOUT
  {
    if ss == [] || TimerAfter(LAYER_TIMEOUT, ss) == LAYER_TIMEOUT {
      k := |ss|;
    } else {
      TimerInRange(LAYER_TIMEOUT, ss[..|ss| - 1]);
      k := WindowFromFull(ss[..|ss| - 1]);
      WindowGrows(ss, k);
    }
  }

  /** From an empty timer, a gain at the end is the gain of some final window. */
  lemma {:induction false} WindowFromEmpty(ss: seq<Sample>) returns (k: nat)
    ensures k <= |ss| && Balance(ss[k..]) >= TimerAfter(0, ss)
  {
    if ss == [] || TimerAfter(0, ss) == 0 {
      k := |ss|;
    } else {
      TimerInRange(0, ss[..|ss| - 1]);
      k := WindowFromEmpty(ss[..|ss| - 1]);
      WindowGrows(ss, k);
    }
  }

  /** After the timer has been full, Enable is cleared only at the end of a window in which bad
      samples exceed good ones by more than LAYER_TIMEOUT. */
  lemma DisableNeedsBadWindow(ss: seq<Sample>, last: Sample) returns (k: nat)
    requires WriteOf(TimerAfter(LAYER_TIMEOUT, ss), last) == Disable
    ensures k <= |ss| && Balance((ss + [last])[k..]) < -LAYER_TIMEOUT
  {
    k := WindowFromFull(ss);
    WindowGrows(ss + [last], k);
    assert (ss + [last])[..|ss|] == ss;
  }

  /** After Enable was cleared, the request is copied only at the end of a window in which good
      samples exceed bad ones by more than LAYER_TIMEOUT. */
  lemma EnableNeedsGoodWindow(ss: seq<Sample>, last: Sample) returns (k: nat)
    requires WriteOf(TimerAfter(0, ss), last) == CopyRequest
    ensures k <= |ss| && Balance((ss + [last])[k..]) > LAYER_TIMEOUT
  {
    k := WindowFromEmpty(ss);
    WindowGrows(ss + [last], k);
    assert (ss + [last])[..|ss|] == ss;
  }

  // ---- whole runs ----

  /** What the debouncer writes on looking at sample i of a run. */
  function WriteAt(timer: nat, ss: seq<Sample>, i: nat): Write
    requires i < |ss|
  {
    WriteOf(TimerAfter(timer, ss[..i]), ss[i])
  }

  /** All the writes of a run. */
  function WritesOf(timer: nat, ss: seq<Sample>): (ws: seq<Write>)
    ensures |ws| == |ss|
  {
    if ss == [] then []
    else WritesOf(timer, ss[..|ss| - 1]) + [WriteOf(TimerAfter(timer, ss[..|ss| - 1]), ss[|ss| - 1])]
  }

  lemma {:induction false} WritesAt(timer: nat, ss: seq<Sample>, i: nat)
    requires i < |ss|
    ensures WritesOf(timer, ss)[i] == WriteAt(timer, ss, i)
  {
    var init := ss[..|ss| - 1];
    if i < |ss| - 1 {
      WritesAt(timer, init, i);
      assert init[..i] == ss[..i];
    }
  }

  lemma {:induction false} TimerSplits(timer: nat, a: seq<Sample>, b: seq<Sample>)
    ensures TimerAfter(timer, a + b) == TimerAfter(TimerAfter(timer, a), b)
    decreases |b|
  {
    if b == [] {
      assert a + b == a;
    } else {
      assert (a + b)[..|a + b| - 1] == a + b[..|b| - 1];
      TimerSplits(timer, a, b[..|b| - 1]);
    }
  }

  /** The timer at q, from where it stood after sample p. */
  lemma TimerBetween(timer: nat, ss: seq<Sample>, p: nat, q: nat)
    requires p < q <= |ss|
    ensures TimerAfter(timer, ss[..q]) ==
            TimerAfter(TimerStep(TimerAfter(timer, ss[..p]), ss[p]), ss[p + 1..q])
  {
    assert ss[..p + 1][..p] == ss[..p];
    assert ss[..p + 1] + ss[p + 1..q] == ss[..q];
    TimerSplits(timer, ss[..p + 1], ss[p + 1..q]);
  }

  lemma WindowIs(ss: seq<Sample>, p: nat, q: nat, i: nat)
    requires p < q < |ss| && i <= q - p - 1
    ensures (ss[p + 1..q] + [ss[q]])[i..] == ss[p + 1 + i..q + 1]
  {
  }

  /** In any run, between switching a layer off and the next time it is switched as requested lies
      a window of samples, good ones exceeding bad ones by more than LAYER_TIMEOUT. */
  lemma OffUntilGood(timer: nat, ss: seq<Sample>, p: nat, q: nat) returns (k: nat)
    requires p < q < |ss| && WriteAt(timer, ss, p) == Disable && WriteAt(timer, ss, q) == CopyRequest
    ensures p < k <= q && Balance(ss[k..q + 1]) > LAYER_TIMEOUT
  {
    TimerBetween(timer, ss, p, q);
    var window := ss[p + 1..q];
    var i := EnableNeedsGoodWindow(window, ss[q]);
    k := p + 1 + i;
    WindowIs(ss, p, q, i);
  }

  /** And between switching it as requested and the next time it is switched off lies a window in
      which the bad ones exceed the good ones by more than that. */
  lemma OnUntilBad(timer: nat, ss: seq<Sample>, p: nat, q: nat) returns (k: nat)
    requires timer <= LAYER_TIMEOUT
    requires p < q < |ss| && WriteAt(timer, ss, p) == CopyRequest && WriteAt(timer, ss, q) == Disable
    ensures p < k <= q && Balance(ss[k..q + 1]) < -LAYER_TIMEOUT
  {
    TimerInRange(timer, ss[..p]);
    TimerBetween(timer, ss, p, q);
    var window := ss[p + 1..q];
    var i := DisableNeedsBadWindow(window, ss[q]);
    k := p + 1 + i;
    WindowIs(ss, p, q, i);
  }
}

module HotPlug {

  const EDP_TIMEOUT: nat := 5

  /** One link-down iteration. */
  function EdpStep(timer: nat): nat {
    if timer < EDP_TIMEOUT then timer + 1 else 0
  }

  predicate ClearsHpd(timer: nat) { timer == EDP_TIMEOUT - 1 }

  predicate SetsHpd(timer: nat) { timer >= EDP_TIMEOUT }

  /** The timer, and how often HPD was cleared and set, over a run of iterations; an iteration with
      the link up changes nothing. */
  function EdpRun(timer: nat, down: seq<bool>): (r: (nat, nat, nat))
  {
    if down == [] then (timer, 0, 0)
    else
      var (t, clears, sets) := EdpRun(timer, down[..|down| - 1]);
      if down[|down| - 1] then
        (EdpStep(t), clears + (if ClearsHpd(t) then 1 else 0), sets + (if SetsHpd(t) then 1 else 0))
      else (t, clears, sets)
  }

  function Downs(down: seq<bool>): nat {
    if down == [] then 0 else Downs(down[..|down| - 1]) + if down[|down| - 1] then 1 else 0
  }

  /** The retry has period EDP_TIMEOUT + 1 in link-down iterations. */
  lemma {:induction false} EdpCounts(timer: nat, down: seq<bool>)
    requires timer <= EDP_TIMEOUT
    ensures var d := Downs(down);
      EdpRun(timer, down) == ((timer + d) % 6, (timer + d + 1) / 6 - (timer + 1) / 6, (timer + d) / 6)
  {
    if down != [] {
      EdpCounts(timer, down[..|down| - 1]);
      EdpArithmetic(timer + Downs(down[..|down| - 1]));
    }
  }

  lemma EdpArithmetic(x: nat)
    ensures (x + 1) % 6 == EdpStep(x % 6)
    ensures (x + 2) / 6 == (x + 1) / 6 + if ClearsHpd(x % 6) then 1 else 0
    ensures (x + 1) / 6 == x / 6 + if SetsHpd(x % 6) then 1 else 0
  {
  }

  /** Any stretch with EDP_TIMEOUT + 1 link-down iterations holds exactly one clear and one set. */
  lemma OneRetryPerPeriod(timer: nat, down: seq<bool>)
    requires timer <= EDP_TIMEOUT && Downs(down) == EDP_TIMEOUT + 1
    ensures EdpRun(timer, down) == (timer, 1, 1)
  {
    EdpCounts(timer, down);
  }
}

module Supervisor {
  import opened Debounce
  import opened HotPlug

  const MFD_15INCH: nat := 2
  const MFD_12INCH: nat := 1
  const MFD_10INCH: nat := 0

  /** The output bits of the PIO. */
  datatype Out =
    | AdvCs0 | AdvCs1 | DpHpd | DpResetN | LvdsResetN | LvdsScan | TmdsResetN | AvResetN
    | Adv7181Reset | Adv7613Reset | Tmds171Oe | Out1EnN | Out3EnN | Backlight0 | Backlight1
    | Imx6Alpha | IpResetN | HeartBeat | DdrGlobalReset | DdrSoftReset

  /** Never both receivers on the bus. */
  predicate OneSelected(bits: set<Out>) {
    !(AdvCs0 in bits && AdvCs1 in bits)
  }

  /** A video input: bit 0 of Control, bit 10 of Status. */
  datatype Cvi = Cvi(control: bool, status: bool)

  /** What one pass of the inner loop reads. */
  datatype Input = Input(
    alpha: bool, powerDown0: bool, powerDown1: bool, linkUp: bool,
    cvi: seq<Cvi>, output: seq<nat>, request: seq<bool>)

  predicate WellFormed(inp: Input) {
    |inp.cvi| == 4 && |inp.output| == 2 && |inp.request| == 2
  }

  /** The switch setting that routes input k to a layer. */
  function Port(k: nat): nat
    requires k < 4
  {
    if k == 0 then 2 else if k == 1 then 4 else if k == 2 then 8 else 16
  }

  /** What one pass does to the timer and the Enable bit of a layer that shows this input: while the
      input is on, count a good signal up and a bad one down, and at the ends do as requested or
      switch off. */
  ghost predicate Debounced(timer: nat, enable: bool, c: Cvi, request: bool, timer': nat, enable': bool) {
    if !c.control then timer' == timer && enable' == enable
    else if c.status && timer < 3 then timer' == timer + 1 && enable' == enable
    else if c.status then timer' == timer && enable' == request
    else if timer > 0 then timer' == timer - 1 && enable' == enable
    else timer' == 0 && !enable'
  }

  lemma InputFollowed(inp: Input, i: nat, l: Layer, l': Layer)
    requires WellFormed(inp) && i < 2 && l' == LayerStep(l, Routed(inp, i), inp.request[i])
    ensures forall k :: 0 <= k < 4 && inp.output[i] == Port(k) ==>
      Debounced(l.timer, l.enable, inp.cvi[k], inp.request[i], l'.timer, l'.enable)
    ensures (forall k :: 0 <= k < 4 ==> inp.output[i] != Port(k)) ==> l'.timer == l.timer && l'.enable == l.enable
  {
    assert Port(0) == 2 && Port(1) == 4 && Port(2) == 8 && Port(3) == 16;
  }

  /** What each panel needs on: the 15-inch one DisplayPort and both backlights, the smaller ones
      LVDS and one backlight. */
  ghost function PanelOutputs(lcd: nat): set<Out> {
    if lcd == 2 then {DpResetN, DpHpd, Out3EnN, Backlight0, Backlight1}
    else if lcd == 1 then {LvdsResetN, LvdsScan, Backlight0}
    else if lcd == 0 then {LvdsResetN, LvdsScan, Out1EnN, Backlight1}
    else {}
  }

  /** The receivers' reset line has been low since the n-th value of the PIO. */
  ghost predicate WasReset(trace: seq<set<Out>>, n: nat) {
    exists i :: n <= i < |trace| && Adv7613Reset !in trace[i]
  }

  lemma ResetSince(before: seq<set<Out>>, last: set<Out>, after: seq<set<Out>>, n: nat)
    requires after == before || (after == before + [last] && Adv7613Reset in last)
    ensures WasReset(after, n) <==> WasReset(before, n)
  {
    forall i | n <= i < |before| ensures after[i] == before[i] {
    }
    if i :| n <= i < |before| && Adv7613Reset !in before[i] {
      assert Adv7613Reset !in after[i];
    }
  }

  /** A write to the set or the clear register. */
  datatype PioWrite = On(m: set<Out>) | Off(m: set<Out>)

  /** The receivers selected in turn. */
  ghost function BothReceivers(): seq<PioWrite> {
    [On({AdvCs0}), Off({AdvCs0}), On({AdvCs1}), Off({AdvCs1})]
  }

  /** One receiver read: both released, this one selected, and released. */
  ghost function ReceiverRead(cs: Out): seq<PioWrite> {
    [Off({AdvCs0, AdvCs1}), On({cs}), Off({cs})]
  }

  /** The outputs from which the main loop starts. */
  ghost function BootOutputs(lcd: nat): set<Out> {
    {IpResetN, DdrGlobalReset, DdrSoftReset, Tmds171Oe, Adv7613Reset, Adv7181Reset, AdvCs1, AvResetN, TmdsResetN,
     Imx6Alpha} + PanelOutputs(lcd)
  }

  /** The outputs that the main loop moves. */
  const MOVING: set<Out> := {Imx6Alpha, HeartBeat, DpHpd, AdvCs0, AdvCs1}

  /** The input the switch has routed to a layer. */
  function Routed(inp: Input, i: nat): Sample
    requires WellFormed(inp) && i < 2
  {
    match inp.output[i]
    case 16 => Sample(inp.cvi[3].control, inp.cvi[3].status)
    case 8 => Sample(inp.cvi[2].control, inp.cvi[2].status)
    case 4 => Sample(inp.cvi[1].control, inp.cvi[1].status)
    case 2 => Sample(inp.cvi[0].control, inp.cvi[0].status)
    case _ => Sample(false, false)
  }

  /** One life between restarts: the panel straps, whether the memory PLLs locked, and the inputs of
      the inner loop for as long as its condition held. */
  datatype Life = Life(lcd: nat, locked: bool, loop: seq<Input>)

  /** A layer's samples, and whether the link was down, along a run of the inner loop. */
  function Samples(loop: seq<Input>, i: nat): seq<Sample>
    requires i < 2 && forall j :: 0 <= j < |loop| ==> WellFormed(loop[j])
  {
    if loop == [] then [] else Samples(loop[..|loop| - 1], i) + [Routed(loop[|loop| - 1], i)]
  }

  function LinkDown(loop: seq<Input>): seq<bool> {
    if loop == [] then [] else LinkDown(loop[..|loop| - 1]) + [!loop[|loop| - 1].linkUp]
  }

  function Requests(loop: seq<Input>, i: nat): (rs: seq<bool>)
    requires i < 2 && forall j :: 0 <= j < |loop| ==> WellFormed(loop[j])
    ensures |rs| == |loop|
  {
    if loop == [] then []
    else
      assert WellFormed(loop[|loop| - 1]);
      Requests(loop[..|loop| - 1], i) + [loop[|loop| - 1].request[i]]
  }

  /** The Enable bit after the writes `ws`, made while the requests were `rs`. */
  function EnableAfter(enable: bool, ws: seq<Write>, rs: seq<bool>): bool
    requires |ws| == |rs|
  {
    if ws == [] then enable
    else NewEnable(EnableAfter(enable, ws[..|ws| - 1], rs[..|rs| - 1]), ws[|ws| - 1], rs[|rs| - 1])
  }

  /** A layer: its timer, its Enable bit, and the writes made to that bit since power-up. */
  datatype Layer = Layer(timer: nat, enable: bool, writes: seq<Write>)

  ghost function LayerStep(l: Layer, s: Sample, request: bool): Layer {
    var w := WriteOf(l.timer, s);
    Layer(TimerStep(l.timer, s), NewEnable(l.enable, w, request), l.writes + [w])
  }

  ghost function LayerAfter(l: Layer, loop: seq<Input>, i: nat): Layer
    requires i < 2 && forall j :: 0 <= j < |loop| ==> WellFormed(loop[j])
    ensures |Samples(loop, i)| == |loop|
  {
    SamplesLength(loop, i);
    var ss := Samples(loop, i);
    var ws := WritesOf(l.timer, ss);
    Layer(TimerAfter(l.timer, ss), EnableAfter(l.enable, ws, Requests(loop, i)), l.writes + ws)
  }

  lemma {:induction false} SamplesLength(loop: seq<Input>, i: nat)
    requires i < 2 && forall j :: 0 <= j < |loop| ==> WellFormed(loop[j])
    ensures |Samples(loop, i)| == |loop|
  {
    if loop != [] {
      SamplesLength(loop[..|loop| - 1], i);
    }
  }

  lemma OneMore(loop: seq<Input>, inp: Input, i: nat, l: Layer)
    requires i < 2 && WellFormed(inp) && forall k :: 0 <= k < |loop| ==> WellFormed(loop[k])
    ensures LayerAfter(l, loop + [inp], i) == LayerStep(LayerAfter(l, loop, i), Routed(inp, i), inp.request[i])
  {
    assert (loop + [inp])[..|loop|] == loop;
    SamplesLength(loop, i);
    var ss, rs := Samples(loop, i), Requests(loop, i);
    var s := Routed(inp, i);
    assert (ss + [s])[..|ss|] == ss && (rs + [inp.request[i]])[..|rs|] == rs;
    var ws, w := WritesOf(l.timer, ss), WriteOf(TimerAfter(l.timer, ss), s);
    assert (ws + [w])[..|ws|] == ws;
    assert l.writes + (ws + [w]) == (l.writes + ws) + [w];
    hide WriteOf, TimerStep, NewEnable, Routed;
  }

  /** Of the writes made for the samples, from writes[n] on: between Disable for sample p and
      CopyRequest for sample q, the input has been good for a window that starts at k; between
      CopyRequest and Disable, it has been bad for one. */
  ghost predicate Window(writes: seq<Write>, n: nat, ss: seq<Sample>, p: nat, q: nat, k: nat)
    requires p < q < |ss| && |writes| == n + |ss|
  {
    && (writes[n + p] == Disable && writes[n + q] == CopyRequest ==>
          p < k <= q && Balance(ss[k..q + 1]) > LAYER_TIMEOUT)
    && (writes[n + p] == CopyRequest && writes[n + q] == Disable ==>
          p < k <= q && Balance(ss[k..q + 1]) < -LAYER_TIMEOUT)
  }

  lemma WritesWindows(l: Layer, l': Layer, loop: seq<Input>, i: nat, p: nat, q: nat) returns (k: nat)
    requires i < 2 && (forall j :: 0 <= j < |loop| ==> WellFormed(loop[j])) && l' == LayerAfter(l, loop, i)
    requires l.timer <= LAYER_TIMEOUT && p < q < |loop|
    ensures |Samples(loop, i)| == |loop| && |l'.writes| == |l.writes| + |loop|
    ensures Window(l'.writes, |l.writes|, Samples(loop, i), p, q, k)
  {
    SamplesLength(loop, i);
    var ss, n := Samples(loop, i), |l.writes|;
    WritesAt(l.timer, ss, p);
    WritesAt(l.timer, ss, q);
    assert l'.writes[n + p] == WriteAt(l.timer, ss, p) && l'.writes[n + q] == WriteAt(l.timer, ss, q);
    hide WritesOf, WriteAt, Samples, Balance, LayerAfter;
    k := 0;
    if WriteAt(l.timer, ss, p) == Disable && WriteAt(l.timer, ss, q) == CopyRequest {
      k := OffUntilGood(l.timer, ss, p, q);
    } else if WriteAt(l.timer, ss, p) == CopyRequest && WriteAt(l.timer, ss, q) == Disable {
      k := OnUntilBad(l.timer, ss, p, q);
    }
  }

  /** The retry timer, and the HPD clears and sets since power-up. */
  datatype Retry = Retry(timer: nat, clears: nat, sets: nat)

  ghost function RetryStep(r: Retry, down: bool): Retry {
    if down then
      var (clear, set_) := (if ClearsHpd(r.timer) then 1 else 0, if SetsHpd(r.timer) then 1 else 0);
      Retry(EdpStep(r.timer), r.clears + clear, r.sets + set_)
    else r
  }

  ghost function RetryAfter(r: Retry, loop: seq<Input>): Retry {
    var (timer, clears, sets) := EdpRun(r.timer, LinkDown(loop));
    Retry(timer, r.clears + clears, r.sets + sets)
  }

  lemma OneMoreLink(loop: seq<Input>, inp: Input, r: Retry)
    ensures RetryAfter(r, loop + [inp]) == RetryStep(RetryAfter(r, loop), !inp.linkUp)
  {
    assert (loop + [inp])[..|loop|] == loop;
    var ds := LinkDown(loop);
    assert (ds + [!inp.linkUp])[..|ds|] == ds;
  }

  predicate PossibleLife(l: Life) {
    l.lcd < 4 && forall j :: 0 <= j < |l.loop| ==> WellFormed(l.loop[j])
  }

  /** Passes of the inner loop and starts, in all. */
  function Passes(lives: seq<Life>): nat {
    if lives == [] then 0
    else
      var last := lives[|lives| - 1];
      Passes(lives[..|lives| - 1]) + 1 + if last.locked then |last.loop| else 0
  }

  function NewEnable(old_: bool, w: Write, request: bool): bool {
    match w
    case NoWrite => old_
    case CopyRequest => request
    case Disable => false
  }

  class Board {
    var bits: set<Out>
    var lcd_type: nat
    var edp_timer: nat
    var layer_timer: seq<nat>
    var enable: seq<bool>
    var heart: nat
    var heart_bit: bool
    ghost var trace: seq<set<Out>>  // every value the PIO has held
    ghost var log: seq<PioWrite>    // every write to its set and clear registers
    ghost var writes: seq<seq<Write>>  // what the debouncer has done to each Enable bit since power-up
    ghost var clears: nat  // how often the retry has cleared HPD since power-up
    ghost var sets: nat    // and set it

    ghost function LayerOf(i: nat): Layer
      requires i < |layer_timer| && i < |enable| && i < |writes|
      reads this`layer_timer, this`enable, this`writes
    {
      Layer(layer_timer[i], enable[i], writes[i])
    }

    ghost function RetryOf(): Retry
      reads this`edp_timer, this`clears, this`sets
    {
      Retry(edp_timer, clears, sets)
    }

    ghost predicate Traced()
      reads this`bits, this`trace
    {
      OneSelected(bits) && forall i :: 0 <= i < |trace| ==> OneSelected(trace[i])
    }

    /** In the main loop. */
    ghost predicate InLoop()
      reads this
    {
      && Traced()
      && |layer_timer| == 2 && |enable| == 2 && |writes| == 2
      && layer_timer[0] <= LAYER_TIMEOUT && layer_timer[1] <= LAYER_TIMEOUT && edp_timer <= EDP_TIMEOUT
      && (lcd_type == MFD_15INCH ==> (DpHpd !in bits <==> edp_timer == EDP_TIMEOUT))
      && Adv7613Reset in bits
    }

    /** Layer i has done what the input routed to it asks for, or nothing if none is. */
    twostate predicate FollowsInput(inp: Input, i: nat)
      requires WellFormed(inp) && i < 2
      requires |layer_timer| == |enable| == 2 && |old(layer_timer)| == |old(enable)| == 2
      reads this`layer_timer, this`enable
    {
      && (forall k :: 0 <= k < 4 && inp.output[i] == Port(k) ==>
            Debounced(old(layer_timer[i]), old(enable[i]), inp.cvi[k], inp.request[i], layer_timer[i], enable[i]))
      && ((forall k :: 0 <= k < 4 ==> inp.output[i] != Port(k)) ==>
            layer_timer[i] == old(layer_timer[i]) && enable[i] == old(enable[i]))
    }

    constructor ()
      ensures bits == {} && trace == [] && log == [] && Traced()
    {
      bits, lcd_type, edp_timer, layer_timer, enable := {}, 0, 0, [0, 0], [false, false];
      heart, heart_bit, trace, log := 0, false, [], [];
      writes, clears, sets := [[], []], 0, 0;
    }

    /** Writes to the PIO's set and clear registers. Each is a step at which the bus must be safe. */
    method SetBits(m: set<Out>)
      requires Traced() && OneSelected(bits + m)
      modifies this`bits, this`trace, this`log
      ensures Traced() && bits == old(bits) + m && trace == old(trace) + [bits] && log == old(log) + [On(m)]
    {
      bits := bits + m;
      trace, log := trace + [bits], log + [On(m)];
    }

    method ClearBits(m: set<Out>)
      requires Traced()
      modifies this`bits, this`trace, this`log
      ensures Traced() && bits == old(bits) - m && trace == old(trace) + [bits] && log == old(log) + [Off(m)]
    {
      bits := bits - m;
      trace, log := trace + [bits], log + [Off(m)];
    }

    method GetAdvInfo(cs: nat, powerDown: bool) returns (r: bool)
      requires Traced()
      modifies this`bits, this`trace, this`log
      ensures Traced() && bits == old(bits) - {AdvCs0, AdvCs1} && r == powerDown
      ensures trace == old(trace) + [bits, bits + {if cs == 1 then AdvCs1 else AdvCs0}, bits]
      ensures log == old(log) + ReceiverRead(if cs == 1 then AdvCs1 else AdvCs0)
    {
      ClearBits({AdvCs0, AdvCs1});
      var curr_cs := if cs == 1 then AdvCs1 else AdvCs0;
      SetBits({curr_cs});
      // 255 register reads over I2C
      ClearBits({curr_cs});
      r := powerDown;
    }

    method ResetFlash()
      requires Traced() && AdvCs0 !in bits && AdvCs1 !in bits
      modifies this`bits, this`trace, this`log
      ensures Traced() && bits == old(bits) + {Adv7613Reset}
      ensures old(trace) + [old(bits) - {Adv7613Reset}] <= trace
      ensures log == old(log) + [Off({Adv7613Reset}), On({Adv7613Reset})] + BothReceivers() + BothReceivers()
    {
      ClearBits({Adv7613Reset});
      SetBits({Adv7613Reset});
      for round := 0 to 2
        invariant Traced() && bits == old(bits) + {Adv7613Reset}
        invariant old(trace) + [old(bits) - {Adv7613Reset}] <= trace
        invariant log == old(log) + [Off({Adv7613Reset}), On({Adv7613Reset})] +
          (if round == 0 then [] else if round == 1 then BothReceivers() else BothReceivers() + BothReceivers())
      {
        SetBits({AdvCs0});
        ClearBits({AdvCs0});
        SetBits({AdvCs1});
        ClearBits({AdvCs1});
      }
    }

    /** The two layers of one iteration. */
    method Layers(inp: Input)
      requires WellFormed(inp) && |layer_timer| == 2 && |enable| == 2 && |writes| == 2
      modifies this`layer_timer, this`enable, this`writes
      ensures |layer_timer| == 2 && |enable| == 2 && |writes| == 2
      ensures forall i :: 0 <= i < 2 ==> LayerOf(i) == LayerStep(old(LayerOf(i)), Routed(inp, i), inp.request[i])
      ensures FollowsInput(inp, 0) && FollowsInput(inp, 1)
    {
      hide LayerStep, Routed, Debounced, Port;
      ghost var was0, was1 := LayerOf(0), LayerOf(1);
      CountLayers(inp);
      InputFollowed(inp, 0, was0, LayerOf(0));
      InputFollowed(inp, 1, was1, LayerOf(1));
    }

    method CountLayers(inp: Input)
      requires WellFormed(inp) && |layer_timer| == 2 && |enable| == 2 && |writes| == 2
      modifies this`layer_timer, this`enable, this`writes
      ensures |layer_timer| == 2 && |enable| == 2 && |writes| == 2
      ensures forall i :: 0 <= i < 2 ==> LayerOf(i) == LayerStep(old(LayerOf(i)), Routed(inp, i), inp.request[i])
    {
      for i := 0 to 2
        invariant |layer_timer| == 2 && |enable| == 2 && |writes| == 2
        invariant forall j :: i <= j < 2 ==> LayerOf(j) == old(LayerOf(j))
        invariant forall j :: 0 <= j < i ==> LayerOf(j) == LayerStep(old(LayerOf(j)), Routed(inp, j), inp.request[j])
      {
        var s := Routed(inp, i);
        ghost var w := NoWrite;
        if s.control {
          if s.status {
            if layer_timer[i] < LAYER_TIMEOUT {
              layer_timer := layer_timer[i := layer_timer[i] + 1];
            } else {
              enable := enable[i := inp.request[i]];
              w := CopyRequest;
            }
          } else {
            if layer_timer[i] > 0 {
              layer_timer := layer_timer[i := layer_timer[i] - 1];
            } else {
              enable := enable[i := false];
              w := Disable;
            }
          }
        }
        writes := writes[i := writes[i] + [w]];
      }
    }

    /** The hot-plug retry of one iteration. */
    method HotPlugRetry(linkUp: bool)
      requires Traced() && edp_timer <= EDP_TIMEOUT
      requires lcd_type == MFD_15INCH ==> (DpHpd !in bits <==> edp_timer == EDP_TIMEOUT)
      modifies this`bits, this`trace, this`log, this`edp_timer, this`clears, this`sets
      ensures Traced() && (trace == old(trace) || trace == old(trace) + [bits]) && edp_timer <= EDP_TIMEOUT
      ensures RetryOf() == RetryStep(old(RetryOf()), lcd_type == MFD_15INCH && !linkUp)
      ensures var down := lcd_type == MFD_15INCH && !linkUp;
        bits == if down && ClearsHpd(old(edp_timer)) then old(bits) - {DpHpd}
                else if down && SetsHpd(old(edp_timer)) then old(bits) + {DpHpd}
                else old(bits)
      ensures lcd_type == MFD_15INCH ==> (DpHpd !in bits <==> edp_timer == EDP_TIMEOUT)
    {
      if lcd_type == MFD_15INCH && !linkUp {
        if edp_timer < EDP_TIMEOUT - 1 {
          edp_timer := edp_timer + 1;
        } else if edp_timer < EDP_TIMEOUT {
          edp_timer := edp_timer + 1;
          ClearBits({DpHpd});
          clears := clears + 1;
        } else {
          edp_timer := 0;
          SetBits({DpHpd});
          sets := sets + 1;
        }
      }
    }

    method Beat()
      requires Traced()
      modifies this`bits, this`trace, this`log, this`heart, this`heart_bit
      ensures Traced() && (trace == old(trace) || trace == old(trace) + [bits])
      ensures heart == (if old(heart) < 1 then old(heart) + 1 else 0)
      ensures heart_bit == (if heart == 0 then !old(heart_bit) else old(heart_bit))
      ensures bits == if heart != 0 then old(bits)
                      else if heart_bit then old(bits) + {HeartBeat} else old(bits) - {HeartBeat}
    {
      heart := if heart < 1 then heart + 1 else 0;
      if heart == 0 {
        heart_bit := !heart_bit;
        if heart_bit {
          SetBits({HeartBeat});
        } else {
          ClearBits({HeartBeat});
        }
      }
    }

    /** Alpha output, heart beat and receiver check: both receivers are reset if one reads as powered
        down, and only then. */
    method Poll(inp: Input)
      requires Traced()
      modifies this`bits, this`trace, this`log, this`heart, this`heart_bit
      ensures Traced() && old(trace) < trace
      ensures DpHpd in bits <==> DpHpd in old(bits)
      ensures Imx6Alpha in bits <==> !inp.alpha
      ensures AdvCs0 !in bits && AdvCs1 !in bits
      ensures heart == (if old(heart) < 1 then old(heart) + 1 else 0)
      ensures heart_bit == (if heart == 0 then !old(heart_bit) else old(heart_bit))
      ensures HeartBeat in bits <==> if heart == 0 then heart_bit else HeartBeat in old(bits)
      ensures Adv7613Reset in old(bits) ==> Adv7613Reset in bits && bits - MOVING == old(bits) - MOVING
      ensures Adv7613Reset in old(bits) ==> (WasReset(trace, |old(trace)|) <==> inp.powerDown0 || inp.powerDown1)
    {
      if inp.alpha {
        ClearBits({Imx6Alpha});
      } else {
        SetBits({Imx6Alpha});
      }
      Beat();
      ghost var n := |trace|;
      assert Adv7613Reset in old(bits) ==> forall i :: |old(trace)| <= i < n ==> Adv7613Reset in trace[i];
      Receivers(inp);
      assert forall i :: |old(trace)| <= i < n ==> trace[i] == trace[..n][i];
    }

    /** The check of the receivers. */
    method Receivers(inp: Input)
      requires Traced()
      modifies this`bits, this`trace, this`log
      ensures Traced() && old(trace) < trace
      ensures bits == old(bits) - {AdvCs0, AdvCs1} + if inp.powerDown0 || inp.powerDown1 then {Adv7613Reset} else {}
      ensures log == old(log) + ReceiverRead(AdvCs0) + (if inp.powerDown0 then [] else ReceiverRead(AdvCs1)) +
        if inp.powerDown0 || inp.powerDown1 then
          [Off({Adv7613Reset}), On({Adv7613Reset})] + BothReceivers() + BothReceivers()
        else []
      ensures Adv7613Reset in old(bits) ==> (WasReset(trace, |old(trace)|) <==> inp.powerDown0 || inp.powerDown1)
    {
      hide Traced;
      var down := GetAdvInfo(0, inp.powerDown0);
      if !down {
        down := GetAdvInfo(1, inp.powerDown1);
      }
      assert Adv7613Reset in old(bits) ==> !WasReset(trace, |old(trace)|);
      if down {
        ghost var m := |trace|;
        ResetFlash();
        assert Adv7613Reset !in trace[m];
      }
    }

    lemma TimersBounded(inp: Input, l: Layer, l': Layer, i: nat)
      requires WellFormed(inp) && i < 2 && l' == LayerStep(l, Routed(inp, i), inp.request[i])
      requires l.timer <= LAYER_TIMEOUT
      ensures l'.timer <= LAYER_TIMEOUT
    {
    }

    /** One pass of the inner loop. */
    method Iterate(inp: Input)
      requires InLoop() && WellFormed(inp)
      modifies this`bits, this`trace, this`log, this`heart, this`heart_bit
      modifies this`layer_timer, this`enable, this`writes, this`edp_timer, this`clears, this`sets
      ensures InLoop() && old(trace) < trace
      ensures forall i :: 0 <= i < 2 ==> LayerOf(i) == LayerStep(old(LayerOf(i)), Routed(inp, i), inp.request[i])
      ensures FollowsInput(inp, 0) && FollowsInput(inp, 1)
      ensures RetryOf() == RetryStep(old(RetryOf()), lcd_type == MFD_15INCH && !inp.linkUp)
      ensures Imx6Alpha in bits <==> !inp.alpha
      ensures AdvCs0 !in bits && AdvCs1 !in bits && bits - MOVING == old(bits) - MOVING
      ensures heart == (if old(heart) < 1 then old(heart) + 1 else 0)
      ensures heart_bit == (if heart == 0 then !old(heart_bit) else old(heart_bit))
      ensures HeartBeat in bits <==> if heart == 0 then heart_bit else HeartBeat in old(bits)
      ensures WasReset(trace, |old(trace)|) <==> inp.powerDown0 || inp.powerDown1
    {
      hide Traced, Routed, Debounced, Port, WasReset, RetryStep, LayerStep, NewEnable;
      Poll(inp);
      ghost var polled := trace;
      Service(inp);
      ResetSince(polled, bits, trace, |old(trace)|);
    }

    /** The layers and the retry. */
    method Service(inp: Input)
      requires InLoop() && WellFormed(inp)
      modifies this`bits, this`trace, this`log
      modifies this`layer_timer, this`enable, this`writes, this`edp_timer, this`clears, this`sets
      ensures InLoop() && (trace == old(trace) || trace == old(trace) + [bits])
      ensures forall i :: 0 <= i < 2 ==> LayerOf(i) == LayerStep(old(LayerOf(i)), Routed(inp, i), inp.request[i])
      ensures FollowsInput(inp, 0) && FollowsInput(inp, 1)
      ensures RetryOf() == RetryStep(old(RetryOf()), lcd_type == MFD_15INCH && !inp.linkUp)
      ensures bits == old(bits) || bits == old(bits) - {DpHpd} || bits == old(bits) + {DpHpd}
    {
      hide Traced, Routed, Debounced, Port, RetryStep, LayerStep, NewEnable;
      Layers(inp);
      TimersBounded(inp, old(LayerOf(0)), LayerOf(0), 0);
      TimersBounded(inp, old(LayerOf(1)), LayerOf(1), 1);
      HotPlugRetry(inp.linkUp);
    }

    /** From reset to the memory controllers. False when the PLLs have not locked. */
    method PowerUp(lcd: nat, locked: bool) returns (up: bool)
      requires Traced() && lcd < 4
      modifies this
      ensures Traced() && old(trace) < trace && up == locked && lcd_type == lcd
      ensures edp_timer == 0 && layer_timer == [0, 0] && |enable| == 2
      ensures writes == [[], []] && clears == 0 && sets == 0
      ensures bits == if up then {IpResetN, DdrGlobalReset} else {IpResetN}
    {
      ResetAll();
      SetBits({IpResetN});
      lcd_type := lcd;
      up := locked;
      if locked {
        SetBits({DdrGlobalReset});
      }
    }

    method ResetAll()
      requires Traced()
      modifies this
      ensures Traced() && old(trace) < trace && bits == {}
      ensures edp_timer == 0 && layer_timer == [0, 0] && |enable| == 2
      ensures writes == [[], []] && clears == 0 && sets == 0
    {
      edp_timer, layer_timer, heart, heart_bit := 0, [0, 0], 0, false;
      writes, clears, sets := [[], []], 0, 0;
      var e0: bool, e1: bool := *, *;  // the video cores come out of reset as they please
      enable := [e0, e1];
      ClearBits(bits);
    }

    /** The video chips. CS1 is asserted a second time and left so until the first GetAdvInfo. */
    method StartReceivers()
      requires Traced() && AdvCs0 !in bits && AdvCs1 !in bits
      modifies this`bits, this`trace, this`log
      ensures Traced() && old(trace) < trace
      ensures bits == old(bits) + {DdrSoftReset, Tmds171Oe, Adv7613Reset, Adv7181Reset, AdvCs1}
      ensures log == old(log) + [On({DdrSoftReset}), On({Tmds171Oe}), On({Adv7613Reset})] + BothReceivers() +
        [On({Adv7181Reset}), On({AdvCs1})]
    {
      SetBits({DdrSoftReset});
      SetBits({Tmds171Oe});
      SetBits({Adv7613Reset});
      SetBits({AdvCs0});
      ClearBits({AdvCs0});
      SetBits({AdvCs1});
      ClearBits({AdvCs1});
      SetBits({Adv7181Reset});
      SetBits({AdvCs1});
    }

    method StartPanel()
      requires Traced() && AdvCs0 !in bits
      modifies this`bits, this`trace, this`log
      ensures Traced() && old(trace) < trace
      ensures bits == old(bits) + {AvResetN, TmdsResetN, Imx6Alpha} + PanelOutputs(lcd_type)
    {
      if lcd_type == MFD_15INCH {
        SetBits({DpResetN, DpHpd});
      } else if lcd_type == MFD_12INCH || lcd_type == MFD_10INCH {
        SetBits({LvdsResetN, LvdsScan});
      }
      SetBits({AvResetN, TmdsResetN, Imx6Alpha});
      if lcd_type == MFD_15INCH {
        SetBits({Out3EnN, Backlight0, Backlight1});
      } else if lcd_type == MFD_12INCH {
        SetBits({Backlight0});
      } else if lcd_type == MFD_10INCH {
        SetBits({Out1EnN, Backlight1});
      }
    }

    /** Everything before the inner loop. */
    method Boot(lcd: nat, locked: bool) returns (up: bool)
      requires Traced() && lcd < 4
      modifies this
      ensures Traced() && old(trace) < trace && up == locked && lcd_type == lcd
      ensures up ==> InLoop() && edp_timer == 0 && layer_timer == [0, 0]
      ensures bits == if locked then BootOutputs(lcd) else {IpResetN}
      ensures up ==> writes == [[], []] && clears == 0 && sets == 0
    {
      up := PowerUp(lcd, locked);
      if up {
        StartReceivers();
        StartPanel();
      }
    }

    /** Layers and retry are where `loop` takes them from `layers` and `retry`. */
    ghost predicate Follows(layers: seq<Layer>, retry: Retry, loop: seq<Input>)
      requires forall j :: 0 <= j < |loop| ==> WellFormed(loop[j])
      reads this`layer_timer, this`enable, this`writes, this`edp_timer, this`clears, this`sets, this`lcd_type
    {
      && |layer_timer| == 2 && |enable| == 2 && |writes| == 2 && |layers| == 2
      && LayerOf(0) == LayerAfter(layers[0], loop, 0) && LayerOf(1) == LayerAfter(layers[1], loop, 1)
      && (lcd_type == MFD_15INCH ==> RetryOf() == RetryAfter(retry, loop))
    }

    method IterateAfter(inp: Input, ghost layers: seq<Layer>, ghost retry: Retry, ghost loop: seq<Input>)
      requires InLoop() && WellFormed(inp) && forall j :: 0 <= j < |loop| ==> WellFormed(loop[j])
      requires Follows(layers, retry, loop)
      modifies this`bits, this`trace, this`log, this`heart, this`heart_bit
      modifies this`layer_timer, this`enable, this`writes, this`edp_timer, this`clears, this`sets
      ensures InLoop() && old(trace) < trace && Follows(layers, retry, loop + [inp])
      ensures (Imx6Alpha in bits <==> !inp.alpha) && AdvCs0 !in bits && AdvCs1 !in bits
      ensures bits - MOVING == old(bits) - MOVING
    {
      OneMore(loop, inp, 0, layers[0]);
      OneMore(loop, inp, 1, layers[1]);
      OneMoreLink(loop, inp, retry);
      hide LayerStep, LayerAfter, RetryStep, RetryAfter, Routed, Traced, Samples, FollowsInput, WasReset;
      Iterate(inp);
    }

    /** The inner loop: the layers' timers, Enable bits and writes are the debouncer's over the routed
        samples, and the hot-plug timer and the HPD clears and sets are the retry's over the link
        states. */
    method RunLoop(loop: seq<Input>)
      requires InLoop() && forall j :: 0 <= j < |loop| ==> WellFormed(loop[j])
      modifies this`bits, this`trace, this`log, this`heart, this`heart_bit
      modifies this`layer_timer, this`enable, this`writes, this`edp_timer, this`clears, this`sets
      ensures InLoop() && old(trace) <= trace && |trace| >= |old(trace)| + |loop|
      ensures Follows(old([LayerOf(0), LayerOf(1)]), old(RetryOf()), loop)
      ensures loop != [] ==> (Imx6Alpha in bits <==> !loop[|loop| - 1].alpha) && AdvCs0 !in bits && AdvCs1 !in bits
      ensures bits - MOVING == old(bits) - MOVING
    {
      hide *;
      Sizes();
      ghost var layers, retry := [LayerOf(0), LayerOf(1)], RetryOf();
      FollowsAtFirst(layers, retry);
      assert loop[..0] == [];
      for j := 0 to |loop|
        invariant InLoop() && old(trace) <= trace && |trace| >= |old(trace)| + j
        invariant Follows(layers, retry, loop[..j])
        invariant j > 0 ==> (Imx6Alpha in bits <==> !loop[j - 1].alpha) && AdvCs0 !in bits && AdvCs1 !in bits
        invariant bits - MOVING == old(bits) - MOVING
      {
        IterateAfter(loop[j], layers, retry, loop[..j]);
        assert loop[..j] + [loop[j]] == loop[..j + 1];
      }
      assert loop[..|loop|] == loop;
    }

    lemma Sizes()
      requires InLoop()
      ensures |layer_timer| == 2 && |enable| == 2 && |writes| == 2
    {
    }

    lemma FollowsAtFirst(layers: seq<Layer>, retry: Retry)
      requires InLoop() && layers == [LayerOf(0), LayerOf(1)] && retry == RetryOf()
      ensures Follows(layers, retry, [])
    {
      assert forall i :: 0 <= i < 2 ==> layers[i].writes + [] == layers[i].writes;
    }

    /** In any run of the loop, between switching a layer off and the next time it is switched as
        requested its input has been good for a window, and between switching it as requested and
        the next time it is switched off its input has been bad for one. */
    lemma LayerWindows(layers: seq<Layer>, retry: Retry, loop: seq<Input>, i: nat, p: nat, q: nat) returns (k: nat)
      requires (forall j :: 0 <= j < |loop| ==> WellFormed(loop[j])) && Follows(layers, retry, loop)
      requires i < 2 && layers[i].timer <= LAYER_TIMEOUT && p < q < |loop|
      ensures |Samples(loop, i)| == |loop| && |writes[i]| == |layers[i].writes| + |loop|
      ensures Window(writes[i], |layers[i].writes|, Samples(loop, i), p, q, k)
    {
      assert LayerOf(i) == LayerAfter(layers[i], loop, i);
      SamplesLength(loop, i);
      hide LayerAfter, Samples, Window, Follows;
      k := WritesWindows(layers[i], LayerOf(i), loop, i, p, q);
    }

    /** On a 15-inch panel any stretch of the loop with EDP_TIMEOUT + 1 link-down iterations clears HPD
        once and sets it once. */
    lemma HpdPeriod(layers: seq<Layer>, retry: Retry, loop: seq<Input>)
      requires (forall j :: 0 <= j < |loop| ==> WellFormed(loop[j])) && Follows(layers, retry, loop)
      requires lcd_type == MFD_15INCH && retry.timer <= EDP_TIMEOUT && Downs(LinkDown(loop)) == EDP_TIMEOUT + 1
      ensures edp_timer == retry.timer && clears == retry.clears + 1 && sets == retry.sets + 1
    {
      OneRetryPerPeriod(retry.timer, LinkDown(loop));
    }

    /** How a life has ended, if the video cores came out of its reset with these Enable bits: the
        panel is the one strapped; and if the PLLs locked, layers and retry are where the inner loop
        takes them from power-up, and the outputs show the last pass. */
    ghost predicate Lived(l: Life, reset: seq<bool>)
      requires PossibleLife(l)
      reads this
    {
      && lcd_type == l.lcd && |reset| == 2
      && (l.locked ==>
            && InLoop() && Follows([Layer(0, reset[0], []), Layer(0, reset[1], [])], Retry(0, 0, 0), l.loop)
            && bits - MOVING == BootOutputs(l.lcd) - MOVING
            && (l.loop != [] ==>
                  (Imx6Alpha in bits <==> !l.loop[|l.loop| - 1].alpha) && AdvCs0 !in bits && AdvCs1 !in bits))
    }

    /** One life. */
    method Live(l: Life) returns (ghost reset: seq<bool>)
      requires Traced() && PossibleLife(l)
      modifies this
      ensures Traced() && old(trace) <= trace && |trace| >= |old(trace)| + 1 + if l.locked then |l.loop| else 0
      ensures Lived(l, reset)
    {
      var up := Boot(l.lcd, l.locked);
      reset := [false, false];
      if up {
        reset := enable;
        assert [LayerOf(0), LayerOf(1)] == [Layer(0, reset[0], []), Layer(0, reset[1], [])];
        hide Follows, Traced, BootOutputs;
        RunLoop(l.loop);
      }
    }

    /** main: any number of lives, each with any number of iterations. Throughout, the PIO has never
        held both chip selects; and the last life has gone as its inputs say. */
    method RunBoard(lives: seq<Life>) returns (ghost reset: seq<bool>)
      requires Traced()
      requires forall i :: 0 <= i < |lives| ==> PossibleLife(lives[i])
      modifies this
      ensures Traced() && old(trace) <= trace && |trace| >= |old(trace)| + Passes(lives)
      ensures lives != [] ==> Lived(lives[|lives| - 1], reset)
    {
      reset := [];
      assert lives[..0] == [];
      hide Lived, Traced, PossibleLife;
      for i := 0 to |lives|
        invariant Traced() && old(trace) <= trace && |trace| >= |old(trace)| + Passes(lives[..i])
        invariant i > 0 ==> Lived(lives[i - 1], reset)
      {
        reset := Live(lives[i]);
        assert lives[..i + 1][..i] == lives[..i];
      }
      assert lives[..|lives|] == lives;
    }
  }
}
