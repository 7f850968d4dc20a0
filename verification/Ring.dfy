/** Arithmetic of the driver's two circular buffers: a fixed array, an index
    where the next byte is taken out and an index where the next byte goes in.
    One slot always stays unused, so equal indices mean "empty".

    Models the index arithmetic shared by altera_avalon_jtag_uart_{init,write,read}.c. */
module Ring {

  type Byte = x: int | 0 <= x < 256

  const BUF_LEN: nat := 2048

  type Index = i: nat | i < BUF_LEN

  type Buffer = b: seq<Byte> | |b| == BUF_LEN witness seq(BUF_LEN, _ => 0)

  function Succ(i: Index): Index {
    (i + 1) % BUF_LEN
  }

  /** The bytes held by the ring, oldest first. */
  function Contents(buf: Buffer, out: Index, in_: Index): (s: seq<Byte>)
    ensures |s| == if out <= in_ then in_ - out else BUF_LEN - out + in_
    ensures |s| <= BUF_LEN - 1
  {
    if out <= in_ then buf[out..in_] else buf[out..] + buf[..in_]
  }

  /** How far a single copy may run from `in_` before it reaches the array's end
      or the slot in front of `out`: the writer's space computation. */
  function WriteRun(out: Index, in_: Index): (n: nat)
  {
    if in_ < out then out - 1 - in_
    else if out > 0 then BUF_LEN - in_
    else BUF_LEN - 1 - in_
  }

  /** How far a single copy may run from `out`: the reader's computation. */
  function ReadRun(out: Index, in_: Index): (n: nat)
  {
    if in_ >= out then in_ - out else BUF_LEN - out
  }

  /** The writer's run never passes the array's end nor the free space, and it is zero
      exactly when the ring is full. */
  lemma WriteRunIsSafe(buf: Buffer, out: Index, in_: Index)
    ensures var n := WriteRun(out, in_);
      && in_ + n <= BUF_LEN
      && n + |Contents(buf, out, in_)| <= BUF_LEN - 1
      && (n == 0 <==> |Contents(buf, out, in_)| == BUF_LEN - 1)
  {
  }

  /** The interrupt routine's fullness test: the slot after `in_` is `out`. */
  lemma FullTest(buf: Buffer, out: Index, in_: Index)
    ensures Succ(in_) == out <==> |Contents(buf, out, in_)| == BUF_LEN - 1
  {
  }

  /** Adding one byte behind the newest one. */
  lemma Push(buf: Buffer, out: Index, in_: Index, b: Byte)
    requires |Contents(buf, out, in_)| < BUF_LEN - 1
    ensures Contents(buf[in_ := b], out, Succ(in_)) == Contents(buf, out, in_) + [b]
  {
    FillKeepsContents(buf, buf[in_ := b], out, in_, 1);
    hide Contents;
    PublishRun(buf[in_ := b], out, in_, 1);
    assert buf[in_ := b][in_..in_ + 1] == [b];
  }

  lemma HeadTail(s: seq<Byte>)
    requires s != []
    ensures s == [s[0]] + s[1..]
  {
  }

  /** Taking the oldest byte. */
  lemma Pop(buf: Buffer, out: Index, in_: Index)
    requires out != in_
    ensures Contents(buf, out, in_) == [buf[out]] + Contents(buf, Succ(out), in_)
  {
    ConsumeRun(buf, out, in_, 1);
    ContentsAt(buf, out, in_, 0);
    HeadTail(Contents(buf, out, in_));
    hide Contents;
  }

  /** Filling free slots from `in_` on leaves the ring's contents alone until the index moves. */
  lemma FillKeepsContents(buf: Buffer, buf': Buffer, out: Index, in_: Index, n: nat)
    requires in_ + n <= BUF_LEN && n + |Contents(buf, out, in_)| <= BUF_LEN - 1
    requires buf'[..in_] == buf[..in_] && buf'[in_ + n..] == buf[in_ + n..]
    ensures Contents(buf', out, in_) == Contents(buf, out, in_)
  {
  }

  lemma PublishUpTo(buf: Buffer, out: Index, in_: Index, end: Index)
    requires in_ <= end && end - in_ + |Contents(buf, out, in_)| <= BUF_LEN - 1
    ensures Contents(buf, out, end) == Contents(buf, out, in_) + buf[in_..end]
  {
  }

  lemma PublishToEnd(buf: Buffer, out: Index, in_: Index)
    requires 0 < out <= in_
    ensures Contents(buf, out, 0) == Contents(buf, out, in_) + buf[in_..]
  {
  }

  /** Publishing the index after a copy appends exactly the copied bytes. */
  lemma PublishRun(buf: Buffer, out: Index, in_: Index, n: nat)
    requires in_ + n <= BUF_LEN && n + |Contents(buf, out, in_)| <= BUF_LEN - 1
    ensures Contents(buf, out, (in_ + n) % BUF_LEN) == Contents(buf, out, in_) + buf[in_..in_ + n]
  {
    hide Contents;
    if in_ + n < BUF_LEN {
      PublishUpTo(buf, out, in_, in_ + n);
    } else {
      PublishToEnd(buf, out, in_);
    }
  }

  lemma ContentsAt(buf: Buffer, out: Index, in_: Index, i: nat)
    requires i < |Contents(buf, out, in_)| && out + i < BUF_LEN
    ensures Contents(buf, out, in_)[i] == buf[out + i]
  {
  }

  /** The reader's run never passes the array's end nor the contents, and it is zero exactly
      when the ring is empty. */
  lemma ReadRunIsSafe(buf: Buffer, out: Index, in_: Index)
    ensures var n := ReadRun(out, in_);
      && out + n <= BUF_LEN
      && n <= |Contents(buf, out, in_)|
      && (n == 0 <==> Contents(buf, out, in_) == [])
  {
  }

  lemma ConsumeWithin(buf: Buffer, out: Index, in_: Index, n: nat)
    requires n <= |Contents(buf, out, in_)| && out + n < BUF_LEN
    ensures Contents(buf, out + n, in_) == Contents(buf, out, in_)[n..]
  {
  }

  lemma ConsumeToEnd(buf: Buffer, out: Index, in_: Index)
    requires in_ < out
    ensures Contents(buf, 0, in_) == Contents(buf, out, in_)[BUF_LEN - out..]
  {
  }

  /** Consuming a run drops exactly that many of the oldest bytes. */
  lemma ConsumeRun(buf: Buffer, out: Index, in_: Index, n: nat)
    requires n <= |Contents(buf, out, in_)| && out + n <= BUF_LEN
    ensures Contents(buf, (out + n) % BUF_LEN, in_) == Contents(buf, out, in_)[n..]
  {
    hide Contents;
    if out + n < BUF_LEN {
      ConsumeWithin(buf, out, in_, n);
    } else {
      ConsumeToEnd(buf, out, in_);
    }
  }
}
