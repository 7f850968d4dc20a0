/** The interrupt-driven JTAG UART driver (altera_avalon_jtag_uart_{init,write,read}.c,
    fast driver, no operating system).

    Thread code and interrupt code share the driver state with no lock around the
    buffer copies. The thread-side methods below call `Preempt` wherever the original
    may be interrupted between two accesses to shared state, including between any two
    bytes of a memcpy. `Preempt` runs any number of interrupt and timeout routines, so
    whatever a method's contract promises holds under every interleaving, and
    `Inv` holds at every point where the interrupt routine can observe the state. */
module JtagHardware {
  import opened Ring

  const RVALID: nat := 0x8000
  const RAVAIL_ONE: nat := 0x1_0000

  /** The data register: byte in bits 0-7, RVALID bit 15, RAVAIL bits 16 up. */
  predicate Valid(data: nat) { (data / RVALID) % 2 == 1 }

  function Available(data: nat): nat { data / RAVAIL_ONE }

  function Payload(data: nat): Byte { data % 256 }

  function DataWord(b: Byte, avail: nat): (w: nat)
    ensures Valid(w) && Available(w) == avail && Payload(w) == b
  {
    WordParts(b, avail);
    b + RVALID + RAVAIL_ONE * avail
  }

  lemma WordParts(b: Byte, avail: nat)
    ensures var w := b + RVALID + RAVAIL_ONE * avail;
      Valid(w) && Available(w) == avail && Payload(w) == b
  {
    var w := b + RVALID + RAVAIL_ONE * avail;
    DivLiteral(w, RVALID, 2 * avail + 1, b);
    DivLiteral(w, RAVAIL_ONE, avail, b + RVALID);
    DivLiteral(w, 256, 128 + 256 * avail, b);
  }

  lemma DivLiteral(w: nat, m: nat, q: nat, r: nat)
    requires m in {256, RVALID, RAVAIL_ONE} && w == m * q + r && r < m
    ensures w / m == q && w % m == r
  {
  }

  datatype Control = Control(ri: bool, wi: bool, ac: bool, wspace: nat)
  datatype IrqEnable = IrqEnable(re: bool, we: bool)

  /** The device, as an environment. The host may deliver bytes and drain the transmit
      FIFO at any time; both show at the next register access. */
  class Device {
    var rxFifo: seq<Byte>      // delivered by the host, not yet read by the driver
    var txSpace: nat           // room in the transmit FIFO
    var enabled: IrqEnable     // the enable bits last written to the control register
    var active: bool           // the AC bit: the host has been active since it was last cleared
    ghost var arrived: seq<Byte>  // everything the host has delivered
    ghost var sent: seq<Byte>     // everything written to the data register
    ghost var polled: seq<Control>  // every control word read

    constructor ()
      ensures rxFifo == [] && arrived == [] && sent == [] && polled == []
      ensures enabled == IrqEnable(false, false)
    {
      rxFifo, txSpace, enabled, active, arrived, sent, polled := [], 0, IrqEnable(false, false), false, [], [], [];
    }

    /** Control register read: any pending bits; WSPACE is room the driver may use; AC stays set
        until it is cleared. */
    method ReadControl() returns (c: Control)
      modifies this`txSpace, this`active, this`polled
      ensures polled == old(polled) + [c]
      ensures old(txSpace) <= txSpace == c.wspace
      ensures (old(active) ==> active) && c.ac == active
    {
      var ri: bool, wi: bool, ac: bool, more: nat := *, *, *, *;
      txSpace := txSpace + more;
      active := active || ac;
      c := Control(ri, wi, active, txSpace);
      polled := polled + [c];
    }

    /** Control register write: the enable bits, and a one in AC to clear it. */
    method WriteControl(e: IrqEnable, ac: bool)
      modifies this`enabled, this`active
      ensures enabled == e && active == (old(active) && !ac)
    {
      enabled := e;
      active := active && !ac;
    }

    /** Data register read: the oldest byte with RVALID set and RAVAIL counting those left,
        or a word with neither when the FIFO is empty. `burst` is what the host delivered
        since the last access. */
    method ReadData() returns (data: nat, ghost burst: seq<Byte>)
      modifies this`rxFifo, this`arrived
      ensures arrived == old(arrived) + burst
      ensures var waiting := old(rxFifo) + burst;
        if waiting == [] then
          rxFifo == [] && !Valid(data) && Available(data) == 0
        else
          rxFifo == waiting[1..] && Valid(data) && Available(data) == |rxFifo| && Payload(data) == waiting[0]
    {
      var incoming: seq<Byte> := *;
      burst := incoming;
      arrived := arrived + incoming;
      var waiting := rxFifo + incoming;
      if waiting == [] {
        data, rxFifo := 0, [];
      } else {
        rxFifo := waiting[1..];
        data := DataWord(waiting[0], |rxFifo|);
      }
    }

    /** Data register write. Room is the driver's obligation: the device drops what does not fit. */
    method WriteData(b: Byte)
      requires txSpace > 0
      modifies this`txSpace, this`sent
      ensures sent == old(sent) + [b] && txSpace == old(txSpace) - 1
    {
      sent := sent + [b];
      txSpace := txSpace - 1;
    }
  }

}

module JtagUart {
  import opened Ring
  import opened JtagHardware
  import opened Words

  /** The first i bytes of src[pos..] have been copied to buf[at..]. */
  ghost predicate PartIn(buf: seq<Byte>, at: nat, i: nat, src: seq<Byte>, pos: nat) {
    at + i <= |buf| && pos + i <= |src| && buf[at..at + i] == src[pos..pos + i]
  }

  lemma PartInIs(buf: seq<Byte>, at: nat, i: nat, src: seq<Byte>, pos: nat)
    requires PartIn(buf, at, i, src, pos)
    ensures at + i <= |buf| && pos + i <= |src| && buf[at..at + i] == src[pos..pos + i]
  {
  }

  lemma CopyGrows(buf: Buffer, at: nat, i: nat, src: seq<Byte>, pos: nat)
    requires at + i < BUF_LEN && pos + i < |src| && PartIn(buf, at, i, src, pos)
    ensures PartIn(buf[at + i := src[pos + i]], at, i + 1, src, pos)
  {
    assert src[pos..pos + i + 1] == src[pos..pos + i] + [src[pos + i]];
    assert buf[at + i := src[pos + i]][at..at + i] == buf[at..at + i];
  }

  const EIO: int := 5
  const EWOULDBLOCK: int := 11

  /** `after` is `before` with src[i..j] appended. */
  ghost predicate Appended(before: seq<Byte>, after: seq<Byte>, src: seq<Byte>, i: nat, j: nat) {
    i <= j <= |src| && after == before + src[i..j]
  }

  lemma AppendedTwice(a: seq<Byte>, b: seq<Byte>, c: seq<Byte>, src: seq<Byte>, i: nat, j: nat, k: nat)
    requires Appended(a, b, src, i, j) && Appended(b, c, src, j, k)
    ensures Appended(a, c, src, i, k) && k <= |src| && |c| == |a| + k - i
  {
  }

  /** k bytes of `ring` have gone to the device. */
  ghost predicate Drained(before: seq<Byte>, ring: seq<Byte>, k: nat, sent: seq<Byte>, rest: seq<Byte>) {
    k <= |ring| && sent == before + ring[..k] && rest == ring[k..]
  }

  lemma DrainedOneMore(before: seq<Byte>, ring: seq<Byte>, k: nat, sent: seq<Byte>, rest: seq<Byte>)
    requires Drained(before, ring, k, sent, rest) && rest != []
    ensures Drained(before, ring, k + 1, sent + [rest[0]], rest[1..])
  {
  }

  lemma Reassociate(a: seq<Byte>, b: seq<Byte>, c: seq<Byte>)
    ensures a + (b + c) == (a + b) + c
  {
  }

  lemma HandedOver(a: seq<Byte>, ring: seq<Byte>, n: nat)
    requires n <= |ring|
    ensures (a + ring[..n]) + ring[n..] == a + ring
  {
  }

  lemma DrainedNone(before: seq<Byte>, ring: seq<Byte>)
    ensures Drained(before, ring, 0, before, ring)
  {
  }

  lemma DrainedAll(before: seq<Byte>, ring: seq<Byte>, k: nat, sent: seq<Byte>, rest: seq<Byte>)
    requires Drained(before, ring, k, sent, rest)
    ensures k <= |ring| && sent == before + ring[..k] && rest == ring[k..]
  {
  }

  // ---- what control words ask for ----

  /** How many of n waiting bytes go out for a control word: none unless it has WI, else as many as
      it grants room for. */
  ghost function SentOf(c: Control, n: nat): nat {
    if !c.wi then 0 else if c.wspace <= n then c.wspace else n
  }

  ghost function SentBy(words: seq<Control>, n: nat): (k: nat)
    ensures k <= n
  {
    if words == [] then 0
    else
      var k := SentBy(words[..|words| - 1], n);
      k + SentOf(words[|words| - 1], n - k)
  }

  /** No word granted more room than there were bytes. */
  ghost predicate FillsRoom(words: seq<Control>, n: nat) {
    words == [] ||
    (FillsRoom(words[..|words| - 1], n) &&
     var last, k := words[|words| - 1], SentBy(words[..|words| - 1], n);
     last.wi ==> SentOf(last, n - k) == last.wspace)
  }

  /** Some word has RI. */
  ghost predicate Asks(words: seq<Control>) {
    exists i :: 0 <= i < |words| && words[i].ri
  }

  /** The words were read since the log was `since`. */
  ghost predicate Among(words: seq<Control>, since: seq<Control>, polled: seq<Control>) {
    since <= polled && forall i :: 0 <= i < |words| ==> words[i] in polled[|since|..]
  }

  lemma AmongMore(words: seq<Control>, c: Control, since: seq<Control>, polled1: seq<Control>, polled: seq<Control>)
    requires Among(words, since, polled1) && polled1 + [c] <= polled
    ensures Among(words + [c], since, polled)
  {
    assert polled[|polled1|] == c && polled[|since|..][|polled1| - |since|] == c;
    forall i | 0 <= i < |words| ensures words[i] in polled[|since|..] {
      assert polled1[|since|..] <= polled[|since|..];
    }
  }

  ghost predicate Served(words: seq<Control>, before: seq<Byte>, ring: seq<Byte>, we: bool,
                         sent: seq<Byte>, rest: seq<Byte>, we': bool)
  {
    var k := SentBy(words, |ring|);
    sent == before + ring[..k] && rest == ring[k..] && we' == (we && FillsRoom(words, |ring|))
  }

  lemma ServedAll(words: seq<Control>, before: seq<Byte>, ring: seq<Byte>, we: bool,
                  sent: seq<Byte>, rest: seq<Byte>, we': bool)
    requires Served(words, before, ring, we, sent, rest, we')
    ensures var k := SentBy(words, |ring|);
      sent == before + ring[..k] && rest == ring[k..] && we' == (we && FillsRoom(words, |ring|))
  {
  }

  lemma ServedMore(words: seq<Control>, c: Control, before: seq<Byte>, ring: seq<Byte>, we: bool,
                   sent1: seq<Byte>, ring1: seq<Byte>, we1: bool, sent: seq<Byte>, rest: seq<Byte>, we': bool)
    requires Served(words, before, ring, we, sent1, ring1, we1)
    requires var k := SentOf(c, |ring1|);
      sent == sent1 + ring1[..k] && rest == ring1[k..] && we' == (we1 && (c.wi ==> k == c.wspace))
    ensures Served(words + [c], before, ring, we, sent, rest, we')
  {
    assert (words + [c])[..|words|] == words;
    var k, m := SentBy(words, |ring|), SentOf(c, |ring1|);
    assert ring[k..][..m] == ring[k..k + m] && ring[..k] + ring[k..k + m] == ring[..k + m];
  }

  ghost predicate Emptied(words: seq<Control>, rx: seq<Byte>, fifo: seq<Byte>, re: bool,
                          rx': seq<Byte>, fifo': seq<Byte>, re': bool)
  {
    if Asks(words) then (|rx'| == BUF_LEN - 1 || fifo' == []) && (fifo' != [] ==> !re')
    else rx' == rx && fifo' == fifo && re' == re
  }

  lemma EmptiedAll(words: seq<Control>, rx: seq<Byte>, fifo: seq<Byte>, re: bool,
                   rx': seq<Byte>, fifo': seq<Byte>, re': bool)
    requires Emptied(words, rx, fifo, re, rx', fifo', re')
    ensures Asks(words) ==> (|rx'| == BUF_LEN - 1 || fifo' == []) && (fifo' != [] ==> !re')
    ensures !Asks(words) ==> rx' == rx && fifo' == fifo && re' == re
  {
  }

  lemma EmptiedMore(words: seq<Control>, c: Control, rx: seq<Byte>, fifo: seq<Byte>, re: bool, rx1: seq<Byte>,
                    fifo1: seq<Byte>, re1: bool, rx': seq<Byte>, fifo': seq<Byte>, re': bool)
    requires Emptied(words, rx, fifo, re, rx1, fifo1, re1)
    requires c.ri ==> (|rx'| == BUF_LEN - 1 || fifo' == []) && (fifo' != [] ==> !re')
    requires !c.ri ==> rx' == rx1 && fifo' == fifo1 && re' == re1
    ensures Emptied(words + [c], rx, fifo, re, rx', fifo', re')
  {
    var more := words + [c];
    assert more[|words|] == c && forall i :: 0 <= i < |words| ==> more[i] == words[i];
    assert Asks(more) <==> Asks(words) || c.ri;
  }

  lemma NoWords(before: seq<Byte>, ring: seq<Byte>, we: bool, rx: seq<Byte>, fifo: seq<Byte>, re: bool,
                polled: seq<Control>)
    ensures Served([], before, ring, we, before, ring, we) && Emptied([], rx, fifo, re, rx, fifo, re)
    ensures Among([], polled, polled)
  {
  }

  lemma Copied(was: seq<Byte>, ring: seq<Byte>, at: nat, n: nat)
    requires n <= |ring| && at + n <= |was|
    ensures var now := was[..at] + ring[..n] + was[at + n..];
      && |now| == |was| && now[..at] == was[..at]
      && now[at..at + n] == ring[..n] && now[at + n..] == was[at + n..]
  {
  }

  /** A partial copy into a caller's buffer, extended by one byte. */
  lemma BufferGrows(was: seq<Byte>, ring: seq<Byte>, at: nat, i: nat)
    requires at + i < |was| && i < |ring|
    ensures (was[..at] + ring[..i] + was[at + i..])[at + i := ring[i]] ==
            was[..at] + ring[..i + 1] + was[at + i + 1..]
  {
  }

  /** The bytes returned since `first` are the first n of the buffer; the others are as at `start`. */
  ghost predicate Gathered(start: seq<Byte>, now: seq<Byte>, n: nat, first: seq<Byte>, returned: seq<Byte>) {
    n <= |now| == |start| && returned == first + now[..n] && now[n..] == start[n..]
  }

  lemma GatheredMore(start: seq<Byte>, was: seq<Byte>, now: seq<Byte>, n: nat, k: nat,
                     first: seq<Byte>, so: seq<Byte>, returned: seq<Byte>)
    requires Gathered(start, was, n, first, so) && n + k <= |now| == |was|
    requires now[..n] == was[..n] && now[n + k..] == was[n + k..] && returned == so + now[n..n + k]
    ensures Gathered(start, now, n + k, first, returned)
  {
  }

  lemma GatheredAll(start: seq<Byte>, now: seq<Byte>, n: nat, first: seq<Byte>, returned: seq<Byte>)
    requires Gathered(start, now, n, first, returned)
    ensures n <= |now| == |start| && returned == first + now[..n] && now[n..] == start[n..]
  {
  }

  /** A buffer whose bytes from `at` on are being replaced by `ring`, i of them so far. */
  ghost predicate PartCopied(was: seq<Byte>, ring: seq<Byte>, at: nat, i: nat, now: seq<Byte>) {
    at + i <= |was| && i <= |ring| && now == was[..at] + ring[..i] + was[at + i..]
  }

  lemma PartCopiedIs(was: seq<Byte>, ring: seq<Byte>, at: nat, n: nat, now: seq<Byte>)
    requires PartCopied(was, ring, at, n, now)
    ensures at + n <= |was| && n <= |ring| && now == was[..at] + ring[..n] + was[at + n..]
  {
  }

  /** What a bounded stretch of execution shows: a return, or a thread still spinning. */
  datatype Outcome = Returned(rc: int) | Spinning(done: nat) {
    /** Bytes transferred so far. */
    function Moved(): nat {
      match this
      case Returned(rc) => if rc > 0 then rc else 0
      case Spinning(n) => n
    }
  }

  class State {
    const hw: Device
    const rx_buf: array<Byte>
    const tx_buf: array<Byte>
    var rx_in: Index
    var rx_out: Index
    var tx_in: Index
    var tx_out: Index
    var irq_enable: IrqEnable
    var host_inactive: int
    var timeout: int

    ghost var accepted: seq<Byte>  // bytes published to the transmit ring
    ghost var returned: seq<Byte>  // bytes handed to readers
    ghost var publishing: bool     // a writer is between publishing tx_in and setting WE
    ghost var consuming: bool      // a reader has consumed bytes and has not yet set RE
    ghost var peak: int            // the largest host_inactive since the last read or write began
    ghost var points: nat          // how often the thread has been open to interruption

    ghost predicate Wf() {
      rx_buf.Length == BUF_LEN && tx_buf.Length == BUF_LEN && rx_buf != tx_buf
    }

    ghost function TxRing(): seq<Byte>
      reads this`tx_in, this`tx_out, tx_buf
      requires Wf()
    {
      Contents(tx_buf[..], tx_out, tx_in)
    }

    ghost function RxRing(): seq<Byte>
      reads this`rx_in, this`rx_out, rx_buf
      requires Wf()
    {
      Contents(rx_buf[..], rx_out, rx_in)
    }

    /** Transmit side: what was sent, then what the ring holds, is what writers were told
        was accepted; and bytes in the ring are never left with the transmit interrupt off. */
    ghost predicate TxInv()
      reads this`tx_in, this`tx_out, this`accepted, this`irq_enable, this`publishing, tx_buf, hw`sent
    {
      && Wf()
      && hw.sent + TxRing() == accepted
      && (TxRing() != [] && !publishing ==> irq_enable.we)
    }

    /** Receive side: what readers got, then what the ring and the device hold, is what the
        host delivered; and reception is disabled only while the ring is full or a reader
        that made room is still active. */
    ghost predicate RxInv()
      reads this`rx_in, this`rx_out, this`returned, this`irq_enable, this`consuming, rx_buf, hw`rxFifo, hw`arrived
    {
      && Wf()
      && returned + RxRing() + hw.rxFifo == hw.arrived
      && (!irq_enable.re ==> |RxRing()| == BUF_LEN - 1 || consuming)
    }

    ghost predicate Inv()
      reads this, rx_buf, tx_buf, hw
    {
      Wf() && TxInv() && RxInv() && hw.enabled == irq_enable && host_inactive <= peak
    }

    /** altera_avalon_jtag_uart_init, on a device that has delivered nothing to the driver yet. */
    constructor Init(hw: Device, timerAvailable: bool)
      requires hw.sent == [] && hw.rxFifo == hw.arrived
      modifies hw
      ensures Inv() && this.hw == hw && fresh(rx_buf) && fresh(tx_buf)
      ensures irq_enable == IrqEnable(true, false) && accepted == [] && returned == []
      ensures !publishing && !consuming && host_inactive == 0
      ensures timeout == if timerAvailable then 10 else INT_MAX
    {
      this.hw := hw;
      rx_buf := new Byte[BUF_LEN](_ => 0);
      tx_buf := new Byte[BUF_LEN](_ => 0);
      rx_in, rx_out, tx_in, tx_out := 0, 0, 0, 0;
      irq_enable := IrqEnable(true, false);
      host_inactive := 0;
      timeout := if timerAvailable then 10 else INT_MAX;
      accepted, returned, publishing, consuming, peak, points := [], [], false, false, 0, 0;
      new;
      hw.WriteControl(irq_enable, false);
    }

    /** Receive half of the interrupt routine: take bytes until the ring is full or the
        device has none; disable RE only on a full ring. */
    method IrqReceive()
      requires Inv()
      modifies this`rx_in, this`irq_enable, rx_buf, hw`rxFifo, hw`arrived, hw`enabled, hw`active, hw`txSpace,
        hw`polled
      ensures Inv()
      ensures old(RxRing()) <= RxRing()
      ensures |RxRing()| == BUF_LEN - 1 || hw.rxFifo == []
      ensures hw.rxFifo != [] ==> !irq_enable.re
      ensures irq_enable.we == old(irq_enable.we)
      ensures irq_enable.re ==> old(irq_enable.re)
      ensures old(irq_enable.re) && !irq_enable.re ==> |RxRing()| == BUF_LEN - 1
      ensures old(hw.txSpace) <= hw.txSpace && old(hw.polled) <= hw.polled
    {
      hide TxInv, TxRing, Contents;
      var data := ReceiveAll();
      if Available(data) != 0 {
        DisableReceive();
      }
    }

    /** The receive loop: the last data word read, or a word announcing data if none was. */
    method ReceiveAll() returns (data: nat)
      requires RxInv()
      modifies this`rx_in, rx_buf, hw`rxFifo, hw`arrived
      ensures RxInv() && old(RxRing()) <= RxRing()
      ensures |RxRing()| == BUF_LEN - 1 || hw.rxFifo == []
      ensures Available(data) != 0 || hw.rxFifo == []
      ensures Available(data) != 0 ==> |RxRing()| == BUF_LEN - 1
    {
      data := RAVAIL_ONE;
      while true
        invariant RxInv() && old(RxRing()) <= RxRing()
        invariant Available(data) != 0 || hw.rxFifo == []
        decreases BUF_LEN - |RxRing()|
      {
        FullTest(rx_buf[..], rx_out, rx_in);
        var next := Succ(rx_in);
        if next == rx_out {
          break;
        }
        var stop;
        data, stop := TakeByte();
        if stop {
          break;
        }
      }
    }

    /** The end of the receive half with data left over. */
    method DisableReceive()
      requires Inv() && |RxRing()| == BUF_LEN - 1
      modifies this`irq_enable, hw`enabled, hw`active, hw`txSpace, hw`polled
      ensures Inv() && irq_enable == old(irq_enable).(re := false) && old(hw.txSpace) <= hw.txSpace
      ensures old(hw.polled) <= hw.polled
    {
      irq_enable := irq_enable.(re := false);
      hw.WriteControl(irq_enable, false);
      var _ := hw.ReadControl();
    }

    /** One pass of the receive loop once there is room: read the data register and append a
        valid byte to the ring. */
    method TakeByte() returns (data: nat, stop: bool)
      requires RxInv() && |RxRing()| < BUF_LEN - 1
      modifies this`rx_in, rx_buf, hw`rxFifo, hw`arrived
      ensures RxInv()
      ensures stop ==> RxRing() == old(RxRing()) && hw.rxFifo == [] && Available(data) == 0
      ensures !stop ==> old(RxRing()) < RxRing() && |RxRing()| == |old(RxRing())| + 1
      ensures Available(data) != 0 || hw.rxFifo == []
    {
      ghost var fifo := hw.rxFifo;
      ghost var burst;
      data, burst := hw.ReadData();
      assert returned + RxRing() + (fifo + burst) == hw.arrived;
      stop := !Valid(data);
      if !stop {
        Push(rx_buf[..], rx_out, rx_in, Payload(data));
        ghost var was := rx_buf[..];
        rx_buf[rx_in] := Payload(data);
        assert rx_buf[..] == was[rx_in := Payload(data)];
        rx_in := Succ(rx_in);
        assert RxRing() == old(RxRing()) + [(fifo + burst)[0]];
      }
    }

    /** Transmit half: move at most `space` bytes, the WSPACE just read, to the device; turn WE
        off only when room is left, that is when the ring has run dry. */
    method IrqTransmit(space: nat)
      requires Inv() && space <= hw.txSpace
      modifies this`tx_out, this`irq_enable, hw`sent, hw`txSpace, hw`enabled, hw`active, hw`polled
      ensures Inv() && old(hw.polled) <= hw.polled
      ensures var k := if space <= |old(TxRing())| then space else |old(TxRing())|;
        && hw.sent == old(hw.sent) + old(TxRing())[..k]
        && TxRing() == old(TxRing())[k..]
        && irq_enable == old(irq_enable).(we := old(irq_enable.we) && k == space)
    {
      ghost var ring, before := TxRing(), hw.sent;
      hide TxInv, RxInv, TxRing, RxRing, Drained, Contents;
      var left := Transmit(space);
      DrainedAll(before, ring, space - left, hw.sent, TxRing());
      if left > 0 {
        DisableTransmit();
      }
    }

    /** The end of the transmit half with room to spare. */
    method DisableTransmit()
      requires Inv() && TxRing() == []
      modifies this`irq_enable, hw`txSpace, hw`enabled, hw`active, hw`polled
      ensures Inv() && irq_enable == old(irq_enable).(we := false) && old(hw.polled) <= hw.polled
    {
      irq_enable := irq_enable.(we := false);
      hw.WriteControl(irq_enable, false);
      var _ := hw.ReadControl();
    }

    /** The transmit loop: until the room is used up or the ring is empty. */
    method Transmit(space: nat) returns (left: nat)
      requires Wf() && TxInv() && space <= hw.txSpace
      modifies this`tx_out, hw`sent, hw`txSpace
      ensures TxInv() && left <= space && left <= hw.txSpace
      ensures left > 0 ==> TxRing() == []
      ensures Drained(old(hw.sent), old(TxRing()), space - left, hw.sent, TxRing())
    {
      ghost var ring, before := TxRing(), hw.sent;
      left := space;
      DrainedNone(before, ring);
      hide *;
      while left > 0 && tx_out != tx_in
        invariant TxInv() && left <= space && left <= hw.txSpace
        invariant Drained(before, ring, space - left, hw.sent, TxRing())
        decreases left
      {
        SendNext(before, ring, space - left);
        left := left - 1;
      }
      if left > 0 {
        EmptyWhenEqual();
      }
    }

    method SendNext(ghost before: seq<Byte>, ghost ring: seq<Byte>, ghost k: nat)
      requires Wf() && TxInv() && hw.txSpace > 0 && tx_out != tx_in
      requires Drained(before, ring, k, hw.sent, TxRing())
      modifies this`tx_out, hw`sent, hw`txSpace
      ensures TxInv() && hw.txSpace == old(hw.txSpace) - 1
      ensures Drained(before, ring, k + 1, hw.sent, TxRing())
    {
      hide *;
      ghost var sent, rest := hw.sent, TxRing();
      SendByte();
      DrainedOneMore(before, ring, k, sent, rest);
    }

    lemma EmptyWhenEqual()
      requires Wf() && tx_out == tx_in
      ensures TxRing() == []
    {
    }

    /** One pass of the transmit loop: the oldest byte of the ring goes to the device. */
    method SendByte()
      requires TxInv() && hw.txSpace > 0 && tx_out != tx_in
      modifies this`tx_out, hw`sent, hw`txSpace
      ensures TxInv() && hw.txSpace == old(hw.txSpace) - 1
      ensures old(TxRing()) != []
      ensures hw.sent == old(hw.sent + [TxRing()[0]]) && TxRing() == old(TxRing())[1..]
    {
      Pop(tx_buf[..], tx_out, tx_in);
      hw.WriteData(tx_buf[tx_out]);
      tx_out := Succ(tx_out);
    }

    /** One pass of the interrupt routine: what it does is told by the control word it read. */
    method Pass() returns (c: Control)
      requires Inv()
      modifies this`rx_in, this`tx_out, this`irq_enable, rx_buf, hw
      ensures Inv() && Interrupted() && old(hw.polled) + [c] <= hw.polled
      ensures var k := SentOf(c, |old(TxRing())|);
        && hw.sent == old(hw.sent) + old(TxRing())[..k] && TxRing() == old(TxRing())[k..]
        && irq_enable.we == (old(irq_enable.we) && (c.wi ==> k == c.wspace))
      ensures c.ri ==> |RxRing()| == BUF_LEN - 1 || hw.rxFifo == []
      ensures c.ri && hw.rxFifo != [] ==> !irq_enable.re
      ensures !c.ri ==> RxRing() == old(RxRing()) && hw.rxFifo == old(hw.rxFifo) && hw.arrived == old(hw.arrived)
      ensures !c.ri ==> irq_enable.re == old(irq_enable.re)
    {
      hide TxInv, RxInv, TxRing, RxRing;
      c := hw.ReadControl();
      if c.ri {
        IrqReceive();
      }
      if c.wi {
        IrqTransmit(c.wspace);
      }
    }

    /** A further pass after those for `words`. */
    method NextPass(ghost words: seq<Control>, ghost before: seq<Byte>, ghost ring: seq<Byte>, ghost we: bool,
                    ghost rx: seq<Byte>, ghost fifo: seq<Byte>, ghost re: bool, ghost polled: seq<Control>)
      returns (control: Control)
      requires Inv() && Among(words, polled, hw.polled)
      requires Served(words, before, ring, we, hw.sent, TxRing(), irq_enable.we)
      requires Emptied(words, rx, fifo, re, RxRing(), hw.rxFifo, irq_enable.re)
      modifies this`rx_in, this`tx_out, this`irq_enable, rx_buf, hw
      ensures Inv() && Interrupted() && Among(words + [control], polled, hw.polled)
      ensures Served(words + [control], before, ring, we, hw.sent, TxRing(), irq_enable.we)
      ensures Emptied(words + [control], rx, fifo, re, RxRing(), hw.rxFifo, irq_enable.re)
    {
      assert Wf();
      hide TxInv, RxInv, TxRing, RxRing, Contents, Served, Emptied, Among, SentBy, FillsRoom, Asks;
      ghost var ring1, sent1, we1 := TxRing(), hw.sent, irq_enable.we;
      ghost var rx1, fifo1, re1, polled1 := RxRing(), hw.rxFifo, irq_enable.re, hw.polled;
      control := Pass();
      AmongMore(words, control, polled, polled1, hw.polled);
      ServedMore(words, control, before, ring, we, sent1, ring1, we1, hw.sent, TxRing(), irq_enable.we);
      EmptiedMore(words, control, rx, fifo, re, rx1, fifo1, re1, RxRing(), hw.rxFifo, irq_enable.re);
    }

    /** The interrupt routine. `passes` bounds how often the device asks again, so the
        contract speaks of every finite prefix of the loop. `words` are the control words it acted
        on: the loop leaves only on one with neither bit, the oldest bytes of the ring go out as they
        grant room for them, and the device is emptied as far as the ring has room after the last
        that asks for it. */
    method Irq(passes: nat) returns (ghost words: seq<Control>)
      requires Inv()
      modifies this`rx_in, this`tx_out, this`irq_enable, rx_buf, hw
      ensures Inv() && Interrupted()
      ensures |words| <= passes && Among(words, old(hw.polled), hw.polled)
      ensures forall i :: 0 <= i < |words| - 1 ==> words[i].ri || words[i].wi
      ensures |words| < passes ==> words != [] && !words[|words| - 1].ri && !words[|words| - 1].wi
      ensures var k := SentBy(words, |old(TxRing())|);
        && hw.sent == old(hw.sent) + old(TxRing())[..k] && TxRing() == old(TxRing())[k..]
        && irq_enable.we == (old(irq_enable.we) && FillsRoom(words, |old(TxRing())|))
      ensures Asks(words) ==> |RxRing()| == BUF_LEN - 1 || hw.rxFifo == []
      ensures Asks(words) && hw.rxFifo != [] ==> !irq_enable.re
      ensures !Asks(words) ==> RxRing() == old(RxRing()) && hw.rxFifo == old(hw.rxFifo)
      ensures !Asks(words) ==> irq_enable.re == old(irq_enable.re)
    {
      hide TxInv, RxInv, TxRing, RxRing, Contents, Served, Emptied, Among, SentBy, FillsRoom, Asks;
      ghost var ring, before, we := TxRing(), hw.sent, irq_enable.we;
      ghost var rx, fifo, re, polled := RxRing(), hw.rxFifo, irq_enable.re, hw.polled;
      words := Passes(passes, before, ring, we, rx, fifo, re, polled);
      ServedAll(words, before, ring, we, hw.sent, TxRing(), irq_enable.we);
      EmptiedAll(words, rx, fifo, re, RxRing(), hw.rxFifo, irq_enable.re);
    }

    /** The loop. */
    method Passes(passes: nat, ghost before: seq<Byte>, ghost ring: seq<Byte>, ghost we: bool, ghost rx: seq<Byte>,
                  ghost fifo: seq<Byte>, ghost re: bool, ghost polled: seq<Control>)
      returns (ghost words: seq<Control>)
      requires Inv() && ring == TxRing() && before == hw.sent && we == irq_enable.we
      requires rx == RxRing() && fifo == hw.rxFifo && re == irq_enable.re && polled == hw.polled
      modifies this`rx_in, this`tx_out, this`irq_enable, rx_buf, hw
      ensures Inv() && Interrupted() && |words| <= passes && Among(words, polled, hw.polled)
      ensures forall i :: 0 <= i < |words| - 1 ==> words[i].ri || words[i].wi
      ensures |words| < passes ==> words != [] && !words[|words| - 1].ri && !words[|words| - 1].wi
      ensures Served(words, before, ring, we, hw.sent, TxRing(), irq_enable.we)
      ensures Emptied(words, rx, fifo, re, RxRing(), hw.rxFifo, irq_enable.re)
    {
      hide TxInv, RxInv, TxRing, RxRing, Contents, Served, Emptied, Among, SentBy, FillsRoom, Asks;
      words := [];
      NoWords(before, ring, we, rx, fifo, re, polled);
      for i := 0 to passes
        invariant Inv() && Interrupted() && |words| == i && Among(words, polled, hw.polled)
        invariant forall j :: 0 <= j < i ==> words[j].ri || words[j].wi
        invariant Served(words, before, ring, we, hw.sent, TxRing(), irq_enable.we)
        invariant Emptied(words, rx, fifo, re, RxRing(), hw.rxFifo, irq_enable.re)
      {
        var control := NextPass(words, before, ring, we, rx, fifo, re, polled);
        words := words + [control];
        if !control.ri && !control.wi {
          break;
        }
      }
    }

    /** altera_avalon_jtag_uart_timeout: the once-a-second check for the host. */
    method Timeout() returns (ghost active: bool)
      requires Inv()
      modifies this`host_inactive, this`peak, hw`enabled, hw`active, hw`txSpace, hw`polled
      ensures Inv() && hw.txSpace >= old(hw.txSpace)
      ensures old(hw.active) ==> active
      ensures !hw.active
      ensures host_inactive ==
        if active then 0 else if old(host_inactive) < INT_MAX - 2 then old(host_inactive) + 1 else old(host_inactive)
      ensures peak == if host_inactive > old(peak) then host_inactive else old(peak)
    {
      var control := hw.ReadControl();
      active := control.ac;
      if control.ac {
        hw.WriteControl(irq_enable, true);
        host_inactive := 0;
      } else if host_inactive < INT_MAX - 2 {
        host_inactive := host_inactive + 1;
      }
      peak := if host_inactive > peak then host_inactive else peak;
    }

    /** What interrupt code guarantees the thread: bytes only move from the transmit ring to the
        device and from the device to the receive ring. The thread's indices, its buffer and
        the ghost history are outside every interrupt routine's frame. */
    twostate predicate Interrupted()
      requires Wf()
      reads this, rx_buf, tx_buf, hw
    {
      && old(hw.sent) <= hw.sent
      && |TxRing()| <= |old(TxRing())|
      && old(RxRing()) <= RxRing()
      && old(peak) <= peak && old(points) <= points
    }

    /** A point where the thread may be interrupted: any number of interrupts and timeouts. */
    method Preempt()
      requires Inv()
      modifies this`rx_in, this`tx_out, this`irq_enable, this`host_inactive, this`peak, this`points, rx_buf, hw
      ensures Inv() && Interrupted() && tx_buf[..] == old(tx_buf[..]) && points > old(points)
    {
      hide TxInv, RxInv, TxRing, RxRing;
      points := points + 1;
      var events :| 0 <= events;
      for i := 0 to events
        invariant Inv() && Interrupted() && points > old(points)
      {
        if * {
          var passes :| 0 <= passes;
          ghost var words := Irq(passes);
        } else {
          ghost var active := Timeout();
        }
      }
    }

    /** The same, for a thread that holds a buffer of its own. */
    method PreemptReader(buffer: array<Byte>)
      requires Inv() && buffer != rx_buf
      modifies this`rx_in, this`tx_out, this`irq_enable, this`host_inactive, this`peak, this`points, rx_buf, hw
      ensures Inv() && Interrupted() && buffer[..] == old(buffer[..]) && points > old(points)
    {
      Preempt();
    }

    // ---- thread side: transmit ----

    /** One byte of a memcpy into the free part of the transmit ring. */
    method StoreByte(i: Index, b: Byte)
      requires Inv() && tx_in <= i && i - tx_in + |TxRing()| < BUF_LEN - 1
      modifies tx_buf
      ensures Inv() && TxRing() == old(TxRing())
      ensures tx_buf[..] == old(tx_buf[..])[i := b]
    {
      FillKeepsContents(tx_buf[..], tx_buf[..][i := b], tx_out, tx_in, i - tx_in + 1);
      ghost var was := tx_buf[..];
      tx_buf[i] := b;
      assert tx_buf[..] == was[i := b];
    }

    /** memcpy into the free part of the transmit ring, interruptible after every byte. */
    method CopyIn(ptr: seq<Byte>, pos: nat, n: nat)
      requires Inv() && pos + n <= |ptr|
      requires tx_in + n <= BUF_LEN && n + |TxRing()| <= BUF_LEN - 1
      modifies this`rx_in, this`tx_out, this`irq_enable, this`host_inactive, this`peak, this`points, rx_buf, tx_buf, hw
      ensures Inv() && Interrupted()
      ensures tx_buf[..][tx_in..tx_in + n] == ptr[pos..pos + n]
    {
      assert PartIn(tx_buf[..], tx_in, 0, ptr, pos);
      hide TxInv, RxInv, RxRing, TxRing, PartIn;
      for i := 0 to n
        invariant Inv() && Interrupted()
        invariant PartIn(tx_buf[..], tx_in, i, ptr, pos)
      {
        StoreNext(ptr, pos, i);
      }
      PartInIs(tx_buf[..], tx_in, n, ptr, pos);
    }

    /** One byte of the memcpy, and an interruption. */
    method StoreNext(ptr: seq<Byte>, pos: nat, i: nat)
      requires Inv() && pos + i < |ptr| && tx_in + i < BUF_LEN && i + |TxRing()| < BUF_LEN - 1
      requires PartIn(tx_buf[..], tx_in, i, ptr, pos)
      modifies this`rx_in, this`tx_out, this`irq_enable, this`host_inactive, this`peak, this`points, rx_buf, tx_buf, hw
      ensures Inv() && Interrupted() && PartIn(tx_buf[..], tx_in, i + 1, ptr, pos)
    {
      CopyGrows(tx_buf[..], tx_in, i, ptr, pos);
      hide TxInv, RxInv, RxRing, PartIn;
      StoreByte(tx_in + i, ptr[pos + i]);
      Preempt();
    }

    /** Publishing tx_in hands the copied bytes to the interrupt routine. */
    method Publish(ghost data: seq<Byte>, n: nat)
      requires Inv() && |data| == n && n + |TxRing()| <= BUF_LEN - 1
      requires tx_in + n <= BUF_LEN && tx_buf[..][tx_in..tx_in + n] == data
      modifies this`tx_in, this`accepted, this`publishing
      ensures Inv() && publishing
      ensures accepted == old(accepted) + data && TxRing() == old(TxRing()) + data
    {
      PublishMoves(data, n);
      hide Contents, RxInv, RxRing;
      ghost var ring := TxRing();
      tx_in := (tx_in + n) % BUF_LEN;
      accepted := accepted + data;
      publishing := true;
      assert TxRing() == ring + data;
    }

    lemma PublishMoves(data: seq<Byte>, n: nat)
      requires TxInv() && |data| == n && n + |TxRing()| <= BUF_LEN - 1
      requires tx_in + n <= BUF_LEN && tx_buf[..][tx_in..tx_in + n] == data
      ensures Contents(tx_buf[..], tx_out, (tx_in + n) % BUF_LEN) == TxRing() + data
      ensures hw.sent + (TxRing() + data) == accepted + data
    {
      PublishRun(tx_buf[..], tx_out, tx_in, n);
      hide Contents;
      Reassociate(hw.sent, TxRing(), data);
    }

    /** The copy and the publication of one run of n bytes. */
    method AppendBytes(ptr: seq<Byte>, pos: nat, n: nat)
      requires Inv() && pos + n <= |ptr| && tx_in + n <= BUF_LEN && n + |TxRing()| <= BUF_LEN - 1
      modifies this`rx_in, this`tx_out, this`irq_enable, this`host_inactive, this`peak, this`points, rx_buf, hw
      modifies this`tx_in, this`accepted, this`publishing, tx_buf
      ensures Inv() && |old(hw.sent)| <= |hw.sent| && |old(RxRing())| <= |RxRing()| && old(points) <= points
      ensures Appended(old(accepted), accepted, ptr, pos, pos + n)
    {
      hide TxInv, RxInv, RxRing, Contents;
      Preempt();
      CopyIn(ptr, pos, n);
      Publish(ptr[pos..pos + n], n);
    }

    /** One round of the copy loop: snapshot tx_out, copy a run, publish tx_in. A zero result
        means the snapshot showed a full ring. */
    method AppendRun(ptr: seq<Byte>, pos: nat, count: nat) returns (n: nat, out: Index)
      requires Inv() && 0 < count && pos + count <= |ptr|
      modifies this`rx_in, this`tx_out, this`irq_enable, this`host_inactive, this`peak, this`points, rx_buf, hw
      modifies this`tx_in, this`accepted, this`publishing, tx_buf
      ensures Inv() && |old(hw.sent)| <= |hw.sent| && |old(RxRing())| <= |RxRing()| && old(points) <= points
      ensures n <= count && Appended(old(accepted), accepted, ptr, pos, pos + n)
      ensures n == 0 ==> |accepted| == |hw.sent| + BUF_LEN - 1 && out == Succ(tx_in)
    {
      var in_ := tx_in;
      Preempt();
      out := tx_out;
      n := WriteRun(out, in_);
      WriteRunIsSafe(tx_buf[..], out, in_);
      if n == 0 {
        return;
      }
      if n > count {
        n := count;
      }
      AppendBytes(ptr, pos, n);
    }

    /** The inner loop: append runs until everything is in or a snapshot shows a full ring. */
    method FillRing(ptr: seq<Byte>, pos: nat, count: int) returns (n: nat, out: Index)
      requires Inv() && pos <= |ptr| && pos + count <= |ptr|
      modifies this`rx_in, this`tx_out, this`irq_enable, this`host_inactive, this`peak, this`points, rx_buf, hw
      modifies this`tx_in, this`accepted, this`publishing, tx_buf
      ensures Inv() && |old(hw.sent)| <= |hw.sent| && |old(RxRing())| <= |RxRing()| && old(points) <= points
      ensures count <= 0 ==> n == 0
      ensures 0 < count ==> n <= count && (n < count ==> |accepted| == |hw.sent| + BUF_LEN - 1 && out == Succ(tx_in))
      ensures Appended(old(accepted), accepted, ptr, pos, pos + n)
    {
      hide TxInv, RxInv, TxRing, RxRing;
      n, out := 0, 0;
      while n < count
        invariant Inv() && |old(hw.sent)| <= |hw.sent| && |old(RxRing())| <= |RxRing()| && old(points) <= points
        invariant 0 < count ==> n <= count
        invariant count <= 0 ==> n == 0
        invariant Appended(old(accepted), accepted, ptr, pos, pos + n)
        decreases count - n
      {
        Preempt();
        var k;
        ghost var so := accepted;
        k, out := AppendRun(ptr, pos + n, count - n);
        AppendedTwice(old(accepted), so, accepted, ptr, pos, pos + n, pos + n + k);
        if k == 0 {
          break;
        }
        n := n + k;
      }
    }

    /** The spin on tx_out or host timeout, cut off after `patience` polls. */
    method SpinForRoom(out: Index, patience: nat) returns (gaveUp: bool)
      requires Inv()
      modifies this`rx_in, this`tx_out, this`irq_enable, this`host_inactive, this`peak, this`points, rx_buf, hw
      ensures Inv() && Interrupted()
      ensures !gaveUp ==> out != tx_out || host_inactive >= timeout
      ensures gaveUp ==> points > old(points) + patience
    {
      hide TxInv, RxInv, TxRing, RxRing;
      Preempt();
      gaveUp := true;
      for i := 0 to patience
        invariant Inv() && Interrupted() && gaveUp && points > old(points) + i
      {
        if !(out == tx_out && host_inactive < timeout) {
          gaveUp := false;
          break;
        }
        Preempt();
      }
    }

    /** The wait for room, after a snapshot of a full ring, and the test of host_inactive that
        follows it. It ends with room in the ring, or host_inactive has been at the timeout. */
    method AwaitRoom(out: Index, patience: nat) returns (gaveUp: bool, silent: bool)
      requires Inv() && out == Succ(tx_in)
      modifies this`rx_in, this`tx_out, this`irq_enable, this`host_inactive, this`peak, this`points, rx_buf, hw
      ensures Inv() && Interrupted()
      ensures silent == (host_inactive != 0)
      ensures !gaveUp ==> |TxRing()| < BUF_LEN - 1 || peak >= timeout
      ensures points > old(points) && (gaveUp ==> points > old(points) + patience)
    {
      hide TxInv, RxInv, TxRing, RxRing, Contents;
      gaveUp := SpinForRoom(out, patience);
      RoomIff(out);
      Preempt();
      silent := host_inactive != 0;
    }

    lemma RoomIff(out: Index)
      requires Wf() && out == Succ(tx_in)
      ensures |TxRing()| < BUF_LEN - 1 <==> out != tx_out
    {
      FullTest(tx_buf[..], tx_out, tx_in);
    }

    /** The WE section. Interrupts are disabled, so nothing comes between the two updates. */
    method EnableTransmit()
      requires Inv()
      modifies this`irq_enable, this`publishing, hw`enabled, hw`active
      ensures Inv() && !publishing
    {
      irq_enable := irq_enable.(we := true);
      hw.WriteControl(irq_enable, false);
      publishing := false;
    }

    /** The body of the outer loop up to the wait: fill the ring, then enable the interrupt. */
    method FillAndKick(ptr: seq<Byte>, pos: nat, count: int) returns (n: nat, out: Index)
      requires Inv() && pos <= |ptr| && pos + count <= |ptr|
      modifies this`rx_in, this`tx_out, this`irq_enable, this`host_inactive, this`peak, this`points, rx_buf, hw
      modifies this`tx_in, this`accepted, this`publishing, tx_buf
      ensures Inv() && !publishing && |old(hw.sent)| <= |hw.sent|
      ensures |old(RxRing())| <= |RxRing()| && old(points) <= points
      ensures count <= 0 ==> n == 0
      ensures 0 < count ==>
        n <= count && (n < count ==> |accepted| >= |old(hw.sent)| + BUF_LEN - 1 && out == Succ(tx_in))
      ensures Appended(old(accepted), accepted, ptr, pos, pos + n)
    {
      hide TxInv, RxInv, TxRing, RxRing;
      n, out := FillRing(ptr, pos, count);
      Preempt();
      EnableTransmit();
      Preempt();
    }

    /** There is room in the transmit ring, or the host has been silent for the timeout. */
    ghost predicate Waited()
      requires Wf()
      reads this, tx_buf
    {
      |TxRing()| < BUF_LEN - 1 || peak >= timeout
    }

    /** The body of the outer loop: fill the ring, enable the interrupt, and if bytes are left wait
        for room. `again` tells whether the loop continues, unless the wait was cut off. */
    method WriteRound(ptr: seq<Byte>, pos: nat, count: int, nonblock: bool, patience: nat)
      returns (n: nat, again: bool, gaveUp: bool)
      requires Inv() && pos <= |ptr| && pos + count <= |ptr|
      modifies this`rx_in, this`tx_out, this`irq_enable, this`host_inactive, this`peak, this`points, rx_buf, hw
      modifies this`tx_in, this`accepted, this`publishing, tx_buf
      ensures Inv() && !publishing && |old(hw.sent)| <= |hw.sent|
      ensures |old(RxRing())| <= |RxRing()| && old(points) <= points
      ensures count <= 0 ==> n == 0
      ensures 0 < count ==> n <= count && (n < count ==> |accepted| >= |old(hw.sent)| + BUF_LEN - 1)
      ensures Appended(old(accepted), accepted, ptr, pos, pos + n)
      ensures again || gaveUp ==> n < count && !nonblock
      ensures !again && !gaveUp ==> n >= count || nonblock || (host_inactive != 0 && Waited())
      ensures !(again && gaveUp)
      ensures (again ==> points > old(points)) && (gaveUp ==> points > old(points) + patience)
    {
      hide TxInv, RxInv, TxRing, RxRing, Appended, Inv, Contents;
      var out;
      n, out := FillAndKick(ptr, pos, count);
      again, gaveUp := n < count && !nonblock, false;
      if again {
        var silent;
        gaveUp, silent := AwaitRoom(out, patience);
        again := !gaveUp && !silent;
      }
    }

    /** altera_avalon_jtag_uart_write. `patience` bounds the polls of each wait and the number of
        waits, so the contract covers every finite prefix of a blocking call.

        Nothing is appended but a prefix of the caller's bytes; a return value counts exactly
        the bytes appended; a blocking call returns short only while the host is inactive, and only
        when there is room again or the host has been silent for the timeout during the call;
        a non-blocking call fills at least the room there was on entry; and no call returns
        with bytes stranded behind a disabled transmit interrupt. */
    method Write(ptr: seq<Byte>, count: int, nonblock: bool, patience: nat) returns (r: Outcome)
      requires Inv() && !publishing && count <= |ptr|
      modifies this`rx_in, this`tx_out, this`irq_enable, this`host_inactive, this`peak, this`points, rx_buf, hw
      modifies this`tx_in, this`accepted, this`publishing, tx_buf
      ensures Inv() && !publishing && |old(hw.sent)| <= |hw.sent|
      ensures |old(RxRing())| <= |RxRing()| && old(points) <= points
      ensures 0 < count ==> r.Moved() <= count
      ensures Appended(old(accepted), accepted, ptr, 0, r.Moved())
      ensures count <= 0 ==> r.Returned? && r.rc <= 0
      ensures r.Spinning? ==> !nonblock && r.done < count && points >= old(points) + patience
      ensures r.Returned? && r.rc <= 0 ==> r.rc == if nonblock then -EWOULDBLOCK else -EIO
      ensures r.Returned? && 0 < count && r.rc != count ==> nonblock || (host_inactive != 0 && Waited())
      ensures 0 < count ==> r.Moved() == count || r.Moved() >= BUF_LEN - 1 - |old(TxRing())|
    {
      ghost var room := BUF_LEN - 1 - |TxRing()|;
      assert |hw.sent| + |TxRing()| == |accepted|;
      assert Appended(old(accepted), accepted, ptr, 0, 0) && |old(hw.sent)| == |hw.sent|;
      peak := host_inactive;
      hide TxInv, RxInv, TxRing, RxRing, Appended, Inv, Contents, Waited;
      var pos: nat := 0;
      var left := patience;
      var again, spinning := true, false;
      while again
        invariant Inv() && !publishing && |old(hw.sent)| <= |hw.sent|
        invariant |old(RxRing())| <= |RxRing()| && old(points) <= points
        invariant Appended(old(accepted), accepted, ptr, 0, pos) && pos <= |ptr|
        invariant |accepted| == |old(accepted)| + pos
        invariant pos == 0 || pos <= count
        invariant again ==> pos == 0 || (!nonblock && pos < count)
        invariant spinning ==> !again && !nonblock && pos < count && points >= old(points) + patience
        invariant !again && pos < count ==> pos >= room && (nonblock || spinning || (host_inactive != 0 && Waited()))
        invariant again ==> points >= old(points) + (patience - left)
        decreases again, left
      {
        ghost var so := accepted;
        var n, gaveUp;
        n, again, gaveUp := WriteRound(ptr, pos, count - pos, nonblock, patience);
        AppendedTwice(old(accepted), so, accepted, ptr, 0, pos, pos + n);
        pos := pos + n;
        spinning := gaveUp || (again && left == 0);
        again := again && !spinning;
        left := if left == 0 then 0 else left - 1;
      }
      r := if spinning then Spinning(pos)
           else Returned(if pos != 0 then pos else if nonblock then -EWOULDBLOCK else -EIO);
    }

    // ---- thread side: receive ----

    /** memcpy out of the receive ring, interruptible after every byte: the bytes copied are the
        oldest ones the ring held at the start, whatever arrives meanwhile. */
    method CopyOut(buffer: array<Byte>, at: nat, n: nat)
      requires Inv() && buffer != rx_buf && buffer != tx_buf && at + n <= buffer.Length
      requires rx_out + n <= BUF_LEN && n <= |RxRing()|
      modifies this`rx_in, this`tx_out, this`irq_enable, this`host_inactive, this`peak, this`points, rx_buf, hw, buffer
      ensures Inv() && Interrupted()
      ensures buffer[..] == old(buffer[..at] + RxRing()[..n] + buffer[at + n..])
    {
      ghost var ring, was := RxRing(), buffer[..];
      assert PartCopied(was, ring, at, 0, was);
      hide TxInv, RxInv, TxRing, RxRing, PartCopied;
      for i := 0 to n
        invariant Inv() && Interrupted()
        invariant PartCopied(was, ring, at, i, buffer[..])
      {
        CopyByte(buffer, at, i, ring, was);
      }
      PartCopiedIs(was, ring, at, n, buffer[..]);
    }

    /** One byte of the memcpy, and an interruption. */
    method CopyByte(buffer: array<Byte>, at: nat, i: nat, ghost ring: seq<Byte>, ghost was: seq<Byte>)
      requires Inv() && buffer != rx_buf && buffer != tx_buf && at + i < buffer.Length
      requires i < |ring| && ring <= RxRing() && rx_out + i < BUF_LEN
      requires PartCopied(was, ring, at, i, buffer[..])
      modifies this`rx_in, this`tx_out, this`irq_enable, this`host_inactive, this`peak, this`points, rx_buf, hw, buffer
      ensures Inv() && Interrupted()
      ensures PartCopied(was, ring, at, i + 1, buffer[..])
    {
      NextByte(i);
      BufferGrows(was, ring, at, i);
      hide TxInv, RxInv, TxRing, RxRing;
      ghost var now := buffer[..];
      buffer[at + i] := rx_buf[rx_out + i];
      assert buffer[..] == now[at + i := ring[i]];
      PreemptReader(buffer);
    }

    lemma NextByte(i: nat)
      requires Inv() && i < |RxRing()| && rx_out + i < BUF_LEN
      ensures RxRing()[i] == rx_buf[rx_out + i]
    {
    }

    /** Publishing rx_out returns the slots to the interrupt routine. */
    method Consume(n: nat)
      requires Inv() && n <= |RxRing()| && rx_out + n <= BUF_LEN
      modifies this`rx_out, this`returned, this`consuming
      ensures Inv() && consuming
      ensures returned == old(returned + RxRing()[..n]) && RxRing() == old(RxRing()[n..])
    {
      ConsumeMoves(n);
      hide Contents, TxInv, TxRing;
      ghost var ring := RxRing();
      rx_out := (rx_out + n) % BUF_LEN;
      returned := returned + ring[..n];
      consuming := true;
      assert RxRing() == ring[n..];
    }

    lemma ConsumeMoves(n: nat)
      requires RxInv() && n <= |RxRing()| && rx_out + n <= BUF_LEN
      ensures Contents(rx_buf[..], (rx_out + n) % BUF_LEN, rx_in) == RxRing()[n..]
      ensures (returned + RxRing()[..n]) + RxRing()[n..] == returned + RxRing()
    {
      ConsumeRun(rx_buf[..], rx_out, rx_in, n);
      hide Contents;
      HandedOver(returned, RxRing(), n);
    }

    /** The copy and the publication of one run of n bytes. */
    method TakeBytes(buffer: array<Byte>, at: nat, n: nat)
      requires Inv() && buffer != rx_buf && buffer != tx_buf
      requires 0 < n && at + n <= buffer.Length && rx_out + n <= BUF_LEN && n <= |RxRing()|
      modifies this`rx_in, this`tx_out, this`irq_enable, this`host_inactive, this`peak, this`points, rx_buf, hw
      modifies this`rx_out, this`returned, this`consuming, buffer
      ensures Inv() && consuming && points >= old(points)
      ensures |returned| + |RxRing()| >= |old(returned)| + |old(RxRing())|
      ensures returned == old(returned) + buffer[at..at + n]
      ensures buffer[..at] == old(buffer[..at]) && buffer[at + n..] == old(buffer[at + n..])
    {
      hide TxInv, RxInv, Contents, TxRing, RxRing;
      ghost var was, ring := buffer[..], RxRing();
      PreemptReader(buffer);
      assert ring[..n] == RxRing()[..n];
      CopyOut(buffer, at, n);
      PreemptReader(buffer);
      assert ring[..n] == RxRing()[..n];
      Consume(n);
      Copied(was, ring, at, n);
      assert buffer[..] == was[..at] + ring[..n] + was[at + n..];
    }

    /** One round of the copy loop: snapshot rx_in, copy a run, publish rx_out. A zero result
        means the snapshot showed an empty ring. */
    method TakeRun(buffer: array<Byte>, at: nat, space: nat) returns (n: nat, in_: Index)
      requires Inv() && buffer != rx_buf && buffer != tx_buf
      requires 0 < space && at + space <= buffer.Length
      modifies this`rx_in, this`tx_out, this`irq_enable, this`host_inactive, this`peak, this`points, rx_buf, hw
      modifies this`rx_out, this`returned, this`consuming, buffer
      ensures Inv() && n <= space && points >= old(points)
      ensures |returned| + |RxRing()| >= |old(returned)| + |old(RxRing())|
      ensures n == 0 ==> RxRing() == [] && in_ == rx_in && unchanged(buffer)
      ensures (n > 0 ==> consuming) && (n == 0 ==> consuming == old(consuming))
      ensures returned == old(returned) + buffer[at..at + n]
      ensures buffer[..at] == old(buffer[..at]) && buffer[at + n..] == old(buffer[at + n..])
    {
      hide TxInv, RxInv, Contents;
      PreemptReader(buffer);
      in_ := rx_in;
      n := ReadRun(rx_out, in_);
      ReadRunIsSafe(rx_buf[..], rx_out, in_);
      if n == 0 {
        return;
      }
      if n > space {
        n := space;
      }
      TakeBytes(buffer, at, n);
    }

    /** The do-while loop: take runs until the caller's buffer is full or the ring is empty. */
    method DrainRing(buffer: array<Byte>, space: nat) returns (n: nat, in_: Index)
      requires Inv() && buffer != rx_buf && buffer != tx_buf
      requires 0 < space <= buffer.Length
      modifies this`rx_in, this`tx_out, this`irq_enable, this`host_inactive, this`peak, this`points, rx_buf, hw
      modifies this`rx_out, this`returned, this`consuming, buffer
      ensures Inv() && n <= space && points >= old(points)
      ensures n < space ==> |returned| >= |old(returned)| + |old(RxRing())|
      ensures n == 0 ==> RxRing() == [] && in_ == rx_in
      ensures (n > 0 ==> consuming) && (n == 0 ==> consuming == old(consuming))
      ensures returned == old(returned) + buffer[..n]
      ensures buffer[n..] == old(buffer[n..])
    {
      hide TxInv, RxInv, TxRing, RxRing, Contents;
      n, in_ := 0, 0;
      var more := true;
      ghost var start, first := buffer[..], returned;
      assert Gathered(start, buffer[..], 0, first, returned);
      hide Gathered;
      while more
        invariant Inv() && n <= space && (more ==> n < space) && points >= old(points)
        invariant |returned| + |RxRing()| >= |old(returned)| + |old(RxRing())|
        invariant !more ==> n == space || RxRing() == []
        invariant !more && n == 0 ==> in_ == rx_in
        invariant (n > 0 ==> consuming) && (n == 0 ==> consuming == old(consuming))
        invariant Gathered(start, buffer[..], n, first, returned)
        decreases more, space - n
      {
        var k;
        ghost var was, so := buffer[..], returned;
        k, in_ := TakeRun(buffer, n, space - n);
        GatheredMore(start, was, buffer[..], n, k, first, so, returned);
        n := n + k;
        more := k != 0 && n < space;
      }
      GatheredAll(start, buffer[..], n, first, returned);
    }

    /** The spin on rx_in or host timeout, cut off after `patience` polls. */
    method SpinForData(in_: Index, patience: nat) returns (gaveUp: bool)
      requires Inv()
      modifies this`rx_in, this`tx_out, this`irq_enable, this`host_inactive, this`peak, this`points, rx_buf, hw
      ensures Inv() && Interrupted()
      ensures !gaveUp ==> in_ != rx_in || peak >= timeout
      ensures gaveUp ==> points > old(points) + patience
    {
      hide TxInv, RxInv, TxRing, RxRing;
      Preempt();
      gaveUp := true;
      for i := 0 to patience
        invariant Inv() && Interrupted() && gaveUp && points > old(points) + i
      {
        if !(in_ == rx_in && host_inactive < timeout) {
          gaveUp := false;
          break;
        }
        Preempt();
      }
    }

    /** The wait after an empty snapshot and the test for new data that follows it. */
    method AwaitData(in_: Index, patience: nat) returns (gaveUp: bool, quiet: bool)
      requires Inv() && in_ == rx_in && RxRing() == []
      modifies this`rx_in, this`tx_out, this`irq_enable, this`host_inactive, this`peak, this`points, rx_buf, hw
      ensures Inv() && quiet == (RxRing() == []) && peak >= old(peak)
      ensures quiet && !gaveUp ==> peak >= timeout
      ensures points > old(points) && (gaveUp ==> points > old(points) + patience)
    {
      assert in_ == rx_out;
      gaveUp := SpinForData(in_, patience);
      assert in_ != rx_in ==> RxRing() != [];
      hide TxInv, RxInv, TxRing, RxRing;
      Preempt();
      quiet := in_ == rx_in;
      EmptyIff(in_);
    }

    lemma EmptyIff(in_: Index)
      requires Wf() && in_ == rx_out
      ensures RxRing() == [] <==> in_ == rx_in
    {
    }

    /** The RE section at the end of a read. Interrupts are disabled. */
    method EnableReceive()
      requires Inv()
      modifies this`irq_enable, this`consuming, hw`enabled, hw`active
      ensures Inv() && !consuming
    {
      irq_enable := irq_enable.(re := true);
      hw.WriteControl(irq_enable, false);
      consuming := false;
    }

    /** altera_avalon_jtag_uart_read. `patience` bounds the polls of each wait.

        The bytes returned are the next ones in the order received; a call that finds bytes in
        the ring returns as many of them as fit; a call fails only on an empty ring, and a
        blocking one only after host_inactive has reached the timeout while it waited; and no
        call returns leaving reception disabled on a ring with room. */
    method Read(buffer: array<Byte>, space: int, nonblock: bool, patience: nat) returns (r: Outcome)
      requires Inv() && !consuming && buffer != rx_buf && buffer != tx_buf && space <= buffer.Length
      modifies this`rx_in, this`tx_out, this`irq_enable, this`host_inactive, this`peak, this`points, rx_buf, hw
      modifies this`rx_out, this`returned, this`consuming, buffer
      ensures Inv() && !consuming
      ensures r.Moved() <= buffer.Length && (0 < space ==> r.Moved() <= space)
      ensures returned == old(returned) + buffer[..r.Moved()]
      ensures buffer[r.Moved()..] == old(buffer[r.Moved()..])
      ensures space <= 0 ==> r.Returned? && r.rc <= 0
      ensures r.Spinning? ==> !nonblock && r.done == 0 && points >= old(points) + patience
      ensures r.Returned? && r.rc <= 0 ==> r.rc == if nonblock then -EWOULDBLOCK else -EIO
      ensures r.Returned? && r.rc <= 0 && 0 < space ==> RxRing() == [] && (nonblock || peak >= timeout)
      ensures 0 < space ==> r.Moved() == space || r.Moved() >= |old(RxRing())|
    {
      hide TxInv, RxInv, TxRing, Contents;
      peak := host_inactive;
      var n: nat, in_: Index := 0, 0;
      var waiting, spinning := 0 < space, false;
      ghost var again := false;
      ghost var were := |RxRing()|;
      while waiting
        invariant Inv() && n <= buffer.Length && (waiting ==> 0 < space && n == 0)
        invariant 0 < space ==> n <= space
        invariant if n == 0 then !consuming else consuming
        invariant returned == old(returned) + buffer[..n] && buffer[n..] == old(buffer[n..])
        invariant spinning ==> !waiting && !nonblock && n == 0 && points >= old(points) + patience
        invariant points >= old(points) && (space <= 0 ==> !waiting && !spinning && n == 0)
        invariant waiting && again ==> RxRing() != []
        invariant !again ==> |RxRing()| == were || !waiting
        invariant again ==> were == 0
        invariant !waiting && 0 < space ==> n == space || n >= were
        invariant !waiting && !spinning && n == 0 && 0 < space ==> RxRing() == [] && (nonblock || peak >= timeout)
        decreases waiting, !again
      {
        n, in_ := DrainRing(buffer, space);
        waiting := n == 0 && !nonblock;
        if waiting {
          var quiet;
          spinning, quiet := AwaitData(in_, patience);
          waiting := !spinning && !quiet;
          again := true;
        }
      }
      ghost var got := buffer[..];
      if n != 0 {
        PreemptReader(buffer);
        EnableReceive();
      }
      assert buffer[..] == got;
      r := if spinning then Spinning(0)
           else Returned(if n != 0 then n else if nonblock then -EWOULDBLOCK else -EIO);
    }

    /** altera_avalon_jtag_uart_close: wait for the transmit ring to drain. Zero means every
        accepted byte reached the device or the host went silent. */
    method Close(nonblock: bool, patience: nat) returns (r: Outcome)
      requires Inv() && !publishing
      modifies this`rx_in, this`tx_out, this`irq_enable, this`host_inactive, this`peak, this`points, rx_buf, hw
      ensures Inv()
      ensures r.Spinning? ==> !nonblock && r.done == 0 && TxRing() != [] && host_inactive < timeout
      ensures r.Spinning? ==> points > old(points) + patience
      ensures r.Returned? ==> r.rc == 0 || (nonblock && r.rc == -EWOULDBLOCK)
      ensures r == Returned(0) ==> hw.sent == accepted || host_inactive >= timeout
      ensures r == Returned(-EWOULDBLOCK) ==> TxRing() != [] && host_inactive < timeout
    {
      hide RxInv;
      for i := 0 to patience + 1
        invariant Inv() && (i > 0 ==> !nonblock && TxRing() != [] && host_inactive < timeout)
        invariant points >= old(points) + i
      {
        Preempt();
        if !(tx_out != tx_in && host_inactive < timeout) {
          return Returned(0);
        }
        if nonblock {
          return Returned(-EWOULDBLOCK);
        }
      }
      r := Spinning(0);
    }
  }

  datatype Call =
    | WriteCall(ptr: seq<Byte>, nonblock: bool)
    | ReadCall(space: nat, nonblock: bool)
    | CloseCall(nonblock: bool)

  /** What a call came to: its outcome, the bytes it reported as written and those it delivered. */
  datatype Report = Report(r: Outcome, w: seq<Byte>, d: seq<Byte>)

  /** The bytes are as many as the outcome says, those written being the first ones of the caller's;
      only a blocking call can be cut off; and a failure has the error value of its kind of call. */
  predicate Reported(call: Call, rep: Report) {
    match call
    case WriteCall(ptr, nonblock) =>
      && rep.d == [] && rep.r.Moved() <= |ptr| && rep.w == ptr[..rep.r.Moved()]
      && (rep.r.Spinning? ==> !nonblock && rep.r.done < |ptr|) && Failed(rep.r, nonblock)
    case ReadCall(space, nonblock) =>
      && rep.w == [] && |rep.d| == rep.r.Moved() <= space
      && (rep.r.Spinning? ==> !nonblock && rep.r.done == 0) && Failed(rep.r, nonblock)
    case CloseCall(nonblock) =>
      && rep.w == [] && rep.d == []
      && if rep.r.Spinning? then !nonblock && rep.r.done == 0
         else rep.r.rc == 0 || (nonblock && rep.r.rc == -EWOULDBLOCK)
  }

  predicate Failed(r: Outcome, nonblock: bool) {
    r.Returned? && r.rc <= 0 ==> r.rc == if nonblock then -EWOULDBLOCK else -EIO
  }

  function Written(reports: seq<Report>): seq<Byte> {
    if reports == [] then [] else Written(reports[..|reports| - 1]) + reports[|reports| - 1].w
  }

  function Delivered(reports: seq<Report>): seq<Byte> {
    if reports == [] then [] else Delivered(reports[..|reports| - 1]) + reports[|reports| - 1].d
  }

  /** A write that is short has filled the ring: its bytes and those written before are as many as
      the ring can hold. */
  predicate RoomUsed(call: Call, rep: Report, before: nat) {
    call.WriteCall? ==> rep.r.Moved() == |call.ptr| || before + rep.r.Moved() >= BUF_LEN - 1
  }

  /** One report for each call, up to the first that was cut off. */
  ghost predicate Answers(calls: seq<Call>, reports: seq<Report>) {
    && |reports| <= |calls|
    && (forall i :: 0 <= i < |reports| ==>
          Reported(calls[i], reports[i]) && RoomUsed(calls[i], reports[i], |Written(reports[..i])|))
    && (forall i :: 0 <= i < |reports| - 1 ==> !reports[i].r.Spinning?)
    && (|reports| < |calls| ==> reports != [] && reports[|reports| - 1].r.Spinning?)
  }

  /** A whole session on a freshly initialised driver, interrupted anywhere. Every call is served, in
      order, until one is cut off, and reports what it has done; what the calls reported as written
      is what the device got plus what is still in the transmit ring, in order; what they delivered,
      then the receive ring, then the device FIFO is what the host sent, in order; and every reported
      byte still waiting has its interrupt enabled. */
  method Session(sp: State, calls: seq<Call>, patience: nat) returns (reports: seq<Report>)
    requires sp.Inv() && !sp.publishing && !sp.consuming && sp.accepted == [] && sp.returned == []
    modifies sp, sp.rx_buf, sp.tx_buf, sp.hw
    ensures sp.Inv() && !sp.publishing && !sp.consuming
    ensures Answers(calls, reports)
    ensures Written(reports) == sp.hw.sent + sp.TxRing()
    ensures Delivered(reports) + sp.RxRing() + sp.hw.rxFifo == sp.hw.arrived
    ensures sp.accepted != sp.hw.sent ==> sp.irq_enable.we
    ensures |sp.RxRing()| < BUF_LEN - 1 ==> sp.irq_enable.re
  {
    reports := [];
    hide State.Inv, State.RxRing, State.TxRing, Reported, Answers, Written, Delivered;
    NoReports(calls);
    for i := 0 to |calls|
      invariant sp.Inv() && !sp.publishing && !sp.consuming
      invariant Written(reports) == sp.accepted && Delivered(reports) == sp.returned
      invariant |reports| == i && Answers(calls[..i], reports)
      invariant forall j :: 0 <= j < i ==> !reports[j].r.Spinning?
    {
      TxWithin(sp);
      var rep := Serve(sp, calls[i], patience);
      OneMoreReport(calls, reports, rep, i);
      reports := reports + [rep];
      if rep.r.Spinning? {
        AnswersEarly(calls, reports);
        break;
      }
      sp.Preempt();
    }
    assert calls[..|calls|] == calls;
    Accounts(sp);
  }

  lemma NoReports(calls: seq<Call>)
    ensures Written([]) == [] && Delivered([]) == [] && Answers(calls[..0], [])
  {
  }

  lemma OneMoreReport(calls: seq<Call>, reports: seq<Report>, rep: Report, i: nat)
    requires i == |reports| < |calls| && Answers(calls[..i], reports)
    requires forall j :: 0 <= j < i ==> !reports[j].r.Spinning?
    requires Reported(calls[i], rep) && RoomUsed(calls[i], rep, |Written(reports)|)
    ensures Answers(calls[..i + 1], reports + [rep])
    ensures Written(reports + [rep]) == Written(reports) + rep.w
    ensures Delivered(reports + [rep]) == Delivered(reports) + rep.d
  {
    hide Reported, RoomUsed, Written, Delivered;
    var more, upto := reports + [rep], calls[..i + 1];
    assert more[..i] == reports;
    WrittenMore(reports, rep);
    forall j | 0 <= j < |more|
      ensures Reported(upto[j], more[j]) && RoomUsed(upto[j], more[j], |Written(more[..j])|)
    {
      if j < i {
        assert more[..j] == reports[..j] && upto[j] == calls[..i][j];
      }
    }
  }

  lemma WrittenMore(reports: seq<Report>, rep: Report)
    ensures Written(reports + [rep]) == Written(reports) + rep.w
    ensures Delivered(reports + [rep]) == Delivered(reports) + rep.d
  {
    assert (reports + [rep])[..|reports|] == reports;
  }

  lemma AnswersEarly(calls: seq<Call>, reports: seq<Report>)
    requires |reports| <= |calls| && Answers(calls[..|reports|], reports)
    requires reports != [] && reports[|reports| - 1].r.Spinning?
    ensures Answers(calls, reports)
  {
    hide Reported, RoomUsed, Written;
    assert forall j :: 0 <= j < |reports| ==> calls[..|reports|][j] == calls[j];
  }

  /** What the invariant says between calls. */
  lemma Accounts(sp: State)
    requires sp.Inv() && !sp.publishing && !sp.consuming
    ensures sp.accepted == sp.hw.sent + sp.TxRing()
    ensures sp.returned + sp.RxRing() + sp.hw.rxFifo == sp.hw.arrived
    ensures sp.accepted != sp.hw.sent ==> sp.irq_enable.we
    ensures |sp.RxRing()| < BUF_LEN - 1 ==> sp.irq_enable.re
  {
  }

  lemma TxWithin(sp: State)
    requires sp.Inv()
    ensures |sp.TxRing()| <= |sp.accepted|
  {
  }

  /** One call of a session, with the bytes it reported. A write is short only if it does not block or
      the host is inactive, and then it has filled the room there was; a read fails only on an empty
      ring, and if it blocks only after the host has been silent for the timeout; a close that
      returns zero leaves nothing to be sent, unless the host has been silent for the timeout. */
  method Serve(sp: State, call: Call, patience: nat) returns (rep: Report)
    requires sp.Inv() && !sp.publishing && !sp.consuming
    modifies sp, sp.rx_buf, sp.tx_buf, sp.hw
    ensures sp.Inv() && !sp.publishing && !sp.consuming
    ensures sp.accepted == old(sp.accepted) + rep.w && sp.returned == old(sp.returned) + rep.d
    ensures Reported(call, rep) && (rep.r.Spinning? ==> sp.points >= old(sp.points) + patience)
    ensures match call
      case WriteCall(ptr, nonblock) =>
        && (rep.r.Returned? && rep.r.Moved() < |ptr| ==> nonblock || (sp.host_inactive != 0 && sp.Waited()))
        && (rep.r.Moved() == |ptr| || rep.r.Moved() >= BUF_LEN - 1 - |old(sp.TxRing())|)
      case ReadCall(space, nonblock) =>
        && (rep.r.Returned? && rep.r.rc <= 0 && 0 < space ==>
              sp.RxRing() == [] && (nonblock || sp.peak >= sp.timeout))
        && (rep.r.Moved() == space || rep.r.Moved() >= |old(sp.RxRing())|)
      case CloseCall(nonblock) =>
        && (rep.r.Spinning? ==> sp.TxRing() != [] && sp.host_inactive < sp.timeout)
        && (rep.r == Returned(0) ==> sp.hw.sent == sp.accepted || sp.host_inactive >= sp.timeout)
        && (rep.r == Returned(-EWOULDBLOCK) ==> sp.TxRing() != [] && sp.host_inactive < sp.timeout)
  {
    hide State.Inv, State.RxRing, State.TxRing;
    match call {
      case WriteCall(ptr, nonblock) =>
        var r := sp.Write(ptr, |ptr|, nonblock, patience);
        rep := Report(r, ptr[0..r.Moved()], []);
      case ReadCall(space, nonblock) =>
        var buffer := new Byte[space];
        var r := sp.Read(buffer, space, nonblock, patience);
        rep := Report(r, [], buffer[..r.Moved()]);
      case CloseCall(nonblock) =>
        var r := sp.Close(nonblock, patience);
        rep := Report(r, [], []);
    }
  }
}
