/** Properties of the engine's traces and results, stated over the functions of module SpiSpec
    and so over every run of the methods of module Spi proved against them. */
module SpiProperties {
  import opened SpiTypes
  import opened Pins
  import opened SpiSpec

  /** The transmit bits of a transaction, byte after byte in index order, each MSB first. */
  function BitStream(txs: seq<Byte>): (bits: seq<bool>)
    ensures |bits| == 8 * |txs|
    decreases |txs|
  {
    if |txs| == 0 then [] else BitStream(txs[..|txs| - 1]) + MsbBits(txs[|txs| - 1])
  }

  // ---------------------------------------------------------------------------------------
  // The shape of one byte's trace

  /** The first n iterations of the bit loop take six events each, iteration k being the
      transmit and receive of bit 7 - k. */
  lemma {:induction false} BitLoopTraceSlices(c: SpiConfig, tx: Byte, n: nat)
    requires n <= 8
    ensures |BitLoopTrace(c, tx, n)| == 6 * n
    ensures forall k :: 0 <= k < n ==> BitLoopTrace(c, tx, n)[6 * k .. 6 * k + 6] == BitTrace(c, Bit(tx, 7 - k))
  {
    if n != 0 {
      BitLoopTraceSlices(c, tx, n - 1);
      var prev, last := BitLoopTrace(c, tx, n - 1), BitTrace(c, Bit(tx, 8 - n));
      assert BitLoopTrace(c, tx, n) == prev + last;
      forall k | 0 <= k < n
        ensures (prev + last)[6 * k .. 6 * k + 6] == BitTrace(c, Bit(tx, 7 - k))
      {
        if k < n - 1 {
          assert (prev + last)[6 * k .. 6 * k + 6] == prev[6 * k .. 6 * k + 6];
        } else {
          assert (prev + last)[6 * k .. 6 * k + 6] == last;
        }
      }
    }
  }

  /** spi_transfer_byte's trace has 50 events: select asserted, then for k = 0 to 7 the six
      events of bit 7 - k (transmit, then receive), then select deasserted. */
  lemma ByteTraceShape(c: SpiConfig, tx: Byte)
    ensures |ByteTrace(c, tx)| == 50
    ensures ByteTrace(c, tx)[0] == Low(c.ssPin) && ByteTrace(c, tx)[49] == High(c.ssPin)
    ensures forall k :: 0 <= k < 8 ==> ByteTrace(c, tx)[1 + 6 * k .. 7 + 6 * k] == BitTrace(c, Bit(tx, 7 - k))
  {
    var body := BitLoopTrace(c, tx, 8);
    BitLoopTraceSlices(c, tx, 8);
    var t := [Low(c.ssPin)] + body + [High(c.ssPin)];
    assert ByteTrace(c, tx) == t;
    assert t[1..49] == body;
    forall k | 0 <= k < 8
      ensures t[1 + 6 * k .. 7 + 6 * k] == BitTrace(c, Bit(tx, 7 - k))
    {
      assert t[1 + 6 * k .. 7 + 6 * k] == t[1..49][6 * k .. 6 * k + 6];
    }
  }

  // ---------------------------------------------------------------------------------------
  // Event counts

  /** Counting over a trace that starts with event x. */
  lemma CountCons(x: PinEvent, t: seq<PinEvent>, e: PinEvent, p: PinId)
    ensures Count([x] + t, e) == (if x == e then 1 else 0) + Count(t, e)
    ensures CountOn([x] + t, p) == (if x.pin == p then 1 else 0) + CountOn(t, p)
    ensures DrivenLevels([x] + t, p) == (if Drives(x, p) then [x.High?] else []) + DrivenLevels(t, p)
  {
    assert ([x] + t)[0] == x && ([x] + t)[1..] == t;
  }

  /** Counts over a trace of three events. */
  lemma CountThree(x: PinEvent, y: PinEvent, z: PinEvent, e: PinEvent, p: PinId)
    ensures Count([x, y, z], e) == (if x == e then 1 else 0) + (if y == e then 1 else 0) + (if z == e then 1 else 0)
    ensures CountOn([x, y, z], p) == (if x.pin == p then 1 else 0) + (if y.pin == p then 1 else 0) + (if z.pin == p then 1 else 0)
    ensures DrivenLevels([x, y, z], p) ==
      (if Drives(x, p) then [x.High?] else []) + (if Drives(y, p) then [y.High?] else []) + (if Drives(z, p) then [z.High?] else [])
  {
    assert [x, y, z] == [x] + [y, z] && [y, z] == [y] + [z] && [z] == [z] + [];
    CountCons(x, [y, z], e, p);
    CountCons(y, [z], e, p);
    CountCons(z, [], e, p);
  }

  /** One bit of the loop: two rising and two falling clock edges, one sample of data in, one
      write of data out carrying the bit, and nothing on slave select. */
  lemma BitTraceCounts(c: SpiConfig, b: bool)
    requires PinsDistinct(c)
    ensures Count(BitTrace(c, b), High(c.sckPin)) == 2 && Count(BitTrace(c, b), Low(c.sckPin)) == 2
    ensures Count(BitTrace(c, b), Read(c.misoPin)) == 1
    ensures CountOn(BitTrace(c, b), c.ssPin) == 0
    ensures DrivenLevels(BitTrace(c, b), c.mosiPin) == [b]
  {
    var tt, rt := TransmitTrace(c, b), ReceiveTrace(c);
    var hs, ls, rm := High(c.sckPin), Low(c.sckPin), Read(c.misoPin);
    CountAppend(tt, rt, hs);
    CountAppend(tt, rt, ls);
    CountAppend(tt, rt, rm);
    CountOnAppend(tt, rt, c.ssPin);
    DrivenLevelsAppend(tt, rt, c.mosiPin);
    CountThree(ls, Drive(c.mosiPin, b), hs, hs, c.ssPin);
    CountThree(ls, Drive(c.mosiPin, b), hs, ls, c.mosiPin);
    CountThree(ls, Drive(c.mosiPin, b), hs, rm, c.mosiPin);
    CountThree(ls, hs, rm, hs, c.ssPin);
    CountThree(ls, hs, rm, ls, c.mosiPin);
    CountThree(ls, hs, rm, rm, c.mosiPin);
  }

  /** An event is never counted more often than the events on its pin. */
  lemma {:induction false} CountAtMostCountOn(t: seq<PinEvent>, e: PinEvent)
    ensures Count(t, e) <= CountOn(t, e.pin)
    decreases |t|
  {
    if |t| != 0 {
      CountAtMostCountOn(t[1..], e);
    }
  }

  /** The first n iterations of the bit loop: 2n rising and 2n falling clock edges, n samples
      of data in, nothing on slave select, and bits 7 down to 8 - n of tx written to data out. */
  lemma {:induction false} BitLoopCounts(c: SpiConfig, tx: Byte, n: nat)
    requires PinsDistinct(c) && n <= 8
    ensures Count(BitLoopTrace(c, tx, n), High(c.sckPin)) == 2 * n
    ensures Count(BitLoopTrace(c, tx, n), Low(c.sckPin)) == 2 * n
    ensures Count(BitLoopTrace(c, tx, n), Read(c.misoPin)) == n
    ensures CountOn(BitLoopTrace(c, tx, n), c.ssPin) == 0
    ensures DrivenLevels(BitLoopTrace(c, tx, n), c.mosiPin) == MsbBits(tx)[..n]
  {
    if n != 0 {
      BitLoopCounts(c, tx, n - 1);
      var prev, last := BitLoopTrace(c, tx, n - 1), BitTrace(c, Bit(tx, 8 - n));
      BitTraceCounts(c, Bit(tx, 8 - n));
      CountAppend(prev, last, High(c.sckPin));
      CountAppend(prev, last, Low(c.sckPin));
      CountAppend(prev, last, Read(c.misoPin));
      CountOnAppend(prev, last, c.ssPin);
      DrivenLevelsAppend(prev, last, c.mosiPin);
      assert MsbBits(tx)[..n] == MsbBits(tx)[..n - 1] + [MsbBits(tx)[n - 1]];
    }
  }

  /** Counting over a byte's trace: the select events around the bit loop's events. */
  lemma ByteTraceSplit(c: SpiConfig, tx: Byte, e: PinEvent, p: PinId)
    ensures Count(ByteTrace(c, tx), e) ==
      (if Low(c.ssPin) == e then 1 else 0) + Count(BitLoopTrace(c, tx, 8), e) + (if High(c.ssPin) == e then 1 else 0)
    ensures CountOn(ByteTrace(c, tx), p) == (if c.ssPin == p then 2 else 0) + CountOn(BitLoopTrace(c, tx, 8), p)
    ensures DrivenLevels(ByteTrace(c, tx), p) ==
      (if c.ssPin == p then [false] else []) + DrivenLevels(BitLoopTrace(c, tx, 8), p) + (if c.ssPin == p then [true] else [])
  {
    var body := BitLoopTrace(c, tx, 8);
    var lo, hi := [Low(c.ssPin)], [High(c.ssPin)];
    CountCons(Low(c.ssPin), body, e, p);
    CountCons(High(c.ssPin), [], e, p);
    CountAppend(lo + body, hi, e);
    CountOnAppend(lo + body, hi, p);
    DrivenLevelsAppend(lo + body, hi, p);
  }

  /** spi_transfer_byte with four distinct pins: slave select is touched exactly twice (one
      assertion, one deassertion), the clock rises 16 times and falls 16 times, data in is
      sampled 8 times, and data out carries the bits of tx MSB first. */
  lemma ByteTraceCounts(c: SpiConfig, tx: Byte)
    requires PinsDistinct(c)
    ensures CountOn(ByteTrace(c, tx), c.ssPin) == 2
    ensures Count(ByteTrace(c, tx), Low(c.ssPin)) == 1 && Count(ByteTrace(c, tx), High(c.ssPin)) == 1
    ensures Count(ByteTrace(c, tx), High(c.sckPin)) == 16 && Count(ByteTrace(c, tx), Low(c.sckPin)) == 16
    ensures Count(ByteTrace(c, tx), Read(c.misoPin)) == 8
    ensures DrivenLevels(ByteTrace(c, tx), c.mosiPin) == MsbBits(tx)
  {
    var body := BitLoopTrace(c, tx, 8);
    BitLoopCounts(c, tx, 8);
    assert MsbBits(tx)[..8] == MsbBits(tx);
    CountAtMostCountOn(body, Low(c.ssPin));
    CountAtMostCountOn(body, High(c.ssPin));
    ByteTraceSplit(c, tx, Low(c.ssPin), c.ssPin);
    ByteTraceSplit(c, tx, High(c.ssPin), c.mosiPin);
    ByteTraceSplit(c, tx, High(c.sckPin), c.mosiPin);
    ByteTraceSplit(c, tx, Low(c.sckPin), c.mosiPin);
    ByteTraceSplit(c, tx, Read(c.misoPin), c.mosiPin);
  }

  /** The example of the byte 0x55: data out carries 0, 1, 0, 1, 0, 1, 0, 1. */
  lemma MosiOf0x55(c: SpiConfig)
    requires PinsDistinct(c)
    ensures DrivenLevels(ByteTrace(c, 0x55), c.mosiPin) == [false, true, false, true, false, true, false, true]
  {
    ByteTraceCounts(c, 0x55);
    MaskValues(0); MaskValues(1); MaskValues(2); MaskValues(3);
    MaskValues(4); MaskValues(5); MaskValues(6); MaskValues(7);
  }

  // ---------------------------------------------------------------------------------------
  // Mode 0 timing within a byte

  /** Event r of iteration k sits at position 1 + 6 k + r of a byte's trace. */
  lemma ByteTraceAt(c: SpiConfig, tx: Byte, k: nat, r: nat)
    requires k < 8 && r < 6
    ensures |ByteTrace(c, tx)| == 50
    ensures ByteTrace(c, tx)[1 + 6 * k + r] == BitTrace(c, Bit(tx, 7 - k))[r]
  {
    ByteTraceShape(c, tx);
    assert ByteTrace(c, tx)[1 + 6 * k + r] == ByteTrace(c, tx)[1 + 6 * k .. 7 + 6 * k][r];
  }

  /** Position i of a byte's trace, for one i: a sample follows a rising clock edge, and a
      write of data out sits between a falling and a rising one. */
  lemma ByteTraceMode0At(c: SpiConfig, tx: Byte, i: nat)
    requires c.mosiPin != c.sckPin && c.mosiPin != c.ssPin && i < 50
    ensures |ByteTrace(c, tx)| == 50
    ensures ByteTrace(c, tx)[i].Read? ==> 0 < i && ByteTrace(c, tx)[i - 1] == High(c.sckPin)
    ensures Drives(ByteTrace(c, tx)[i], c.mosiPin) ==>
      0 < i < 49 && ByteTrace(c, tx)[i - 1] == Low(c.sckPin) && ByteTrace(c, tx)[i + 1] == High(c.sckPin)
  {
    ByteTraceShape(c, tx);
    if 1 <= i <= 48 {
      var k, r := (i - 1) / 6, (i - 1) % 6;
      assert i == 1 + 6 * k + r;
      ByteTraceAt(c, tx, k, r);
      if r == 5 {
        ByteTraceAt(c, tx, k, 4);
      } else if r == 1 {
        ByteTraceAt(c, tx, k, 0);
        ByteTraceAt(c, tx, k, 2);
      }
    }
  }

  /** Data in is only ever sampled right after a rising clock edge, and data out only ever
      changes while the clock is low, right before it rises (clock phase 0). */
  lemma ByteTraceMode0(c: SpiConfig, tx: Byte)
    requires c.mosiPin != c.sckPin && c.mosiPin != c.ssPin
    ensures |ByteTrace(c, tx)| == 50
    ensures forall i :: 0 <= i < 50 && ByteTrace(c, tx)[i].Read? ==>
      0 < i && ByteTrace(c, tx)[i - 1] == High(c.sckPin)
    ensures forall i :: 0 <= i < 50 && Drives(ByteTrace(c, tx)[i], c.mosiPin) ==>
      0 < i < 49 && ByteTrace(c, tx)[i - 1] == Low(c.sckPin) && ByteTrace(c, tx)[i + 1] == High(c.sckPin)
  {
    ByteTraceShape(c, tx);
    forall i | 0 <= i < 50 && ByteTrace(c, tx)[i].Read?
      ensures 0 < i && ByteTrace(c, tx)[i - 1] == High(c.sckPin)
    {
      ByteTraceMode0At(c, tx, i);
    }
    forall i | 0 <= i < 50 && Drives(ByteTrace(c, tx)[i], c.mosiPin)
      ensures 0 < i < 49 && ByteTrace(c, tx)[i - 1] == Low(c.sckPin) && ByteTrace(c, tx)[i + 1] == High(c.sckPin)
    {
      ByteTraceMode0At(c, tx, i);
    }
  }

  // ---------------------------------------------------------------------------------------
  // Line levels between operations

  /** After spi_init the clock is low (its idle level for clock polarity 0), slave select is
      high (deasserted) and data out is low, whatever was driven before. */
  lemma InitIdleLevels(t: seq<PinEvent>, c: SpiConfig)
    requires c.ssPin != c.sckPin && c.ssPin != c.mosiPin
    ensures LastLevel(t + InitTrace(c), c.sckPin) == (ClockPolarity == 1)
    ensures LastLevel(t + InitTrace(c), c.ssPin)
    ensures !LastLevel(t + InitTrace(c), c.mosiPin)
  {
    var a, b := t + [Low(c.sckPin)], t + [Low(c.sckPin)] + [High(c.ssPin)];
    assert t + InitTrace(c) == b + [Low(c.mosiPin)];
    forall p | p in {c.sckPin, c.ssPin, c.mosiPin}
      ensures LastLevel(t + InitTrace(c), p) == if p == c.mosiPin then false else LastLevel(b, p)
    {
      LastLevelSnoc(b, Low(c.mosiPin), p);
    }
    LastLevelSnoc(a, High(c.ssPin), c.ssPin);
    LastLevelSnoc(a, High(c.ssPin), c.sckPin);
    LastLevelSnoc(t, Low(c.sckPin), c.sckPin);
  }

  /** Whatever came before, after spi_transfer_byte slave select is high and the clock rests
      high: the last clock edge of the byte is a rising one, so the clock does not return to
      the idle level spi_init gave it. */
  lemma ByteEndLevels(t: seq<PinEvent>, c: SpiConfig, tx: Byte)
    requires c.ssPin != c.sckPin
    ensures LastLevel(t + ByteTrace(c, tx), c.ssPin)
    ensures LastLevel(t + ByteTrace(c, tx), c.sckPin)
  {
    var u := t + ByteTrace(c, tx);
    ByteTraceShape(c, tx);
    assert u == t + ByteTrace(c, tx)[..49] + [High(c.ssPin)];
    LastLevelSnoc(t + ByteTrace(c, tx)[..49], High(c.ssPin), c.ssPin);
    LastLevelSnoc(t + ByteTrace(c, tx)[..49], High(c.ssPin), c.sckPin);
    var v := t + ByteTrace(c, tx)[..48];
    assert t + ByteTrace(c, tx)[..49] == v + [Read(c.misoPin)] by {
      assert ByteTrace(c, tx)[..49] == ByteTrace(c, tx)[..48] + [ByteTrace(c, tx)[48]];
      assert ByteTrace(c, tx)[48] == ByteTrace(c, tx)[43..49][5];
    }
    LastLevelSnoc(v, Read(c.misoPin), c.sckPin);
    assert v == t + ByteTrace(c, tx)[..47] + [High(c.sckPin)] by {
      assert ByteTrace(c, tx)[..48] == ByteTrace(c, tx)[..47] + [ByteTrace(c, tx)[47]];
      assert ByteTrace(c, tx)[47] == ByteTrace(c, tx)[43..49][4];
    }
    LastLevelSnoc(t + ByteTrace(c, tx)[..47], High(c.sckPin), c.sckPin);
  }

  // ---------------------------------------------------------------------------------------
  // Transactions

  /** Sending a then b emits what sending the concatenation emits, so back-to-back
      transactions compose and an empty one emits nothing. */
  lemma {:induction false} TransactionTraceAppend(c: SpiConfig, a: seq<Byte>, b: seq<Byte>)
    ensures TransactionTrace(c, a + b) == TransactionTrace(c, a) + TransactionTrace(c, b)
    ensures TransactionTrace(c, []) == []
    decreases |b|
  {
    if |b| == 0 {
      assert a + b == a;
    } else {
      var init, x := b[..|b| - 1], b[|b| - 1];
      assert b == init + [x];
      assert a + b == (a + init) + [x];
      TransactionTraceAppend(c, a, init);
      TransactionTraceSnoc(c, a + init, x);
      TransactionTraceSnoc(c, init, x);
    }
  }

  /** An accepted transaction of n bytes emits 50 n events, the i-th group of 50 being the
      trace of spi_transfer_byte for byte i. */
  lemma {:induction false} TransactionTraceSlices(c: SpiConfig, txs: seq<Byte>)
    ensures |TransactionTrace(c, txs)| == 50 * |txs|
    ensures forall i :: 0 <= i < |txs| ==> TransactionTrace(c, txs)[50 * i .. 50 * i + 50] == ByteTrace(c, txs[i])
    decreases |txs|
  {
    if |txs| != 0 {
      var init, x := txs[..|txs| - 1], txs[|txs| - 1];
      assert txs == init + [x];
      TransactionTraceSlices(c, init);
      TransactionTraceSnoc(c, init, x);
      ByteTraceShape(c, x);
      var prev := TransactionTrace(c, init);
      forall i | 0 <= i < |txs|
        ensures (prev + ByteTrace(c, x))[50 * i .. 50 * i + 50] == ByteTrace(c, txs[i])
      {
        if i < |init| {
          assert (prev + ByteTrace(c, x))[50 * i .. 50 * i + 50] == prev[50 * i .. 50 * i + 50];
        } else {
          assert (prev + ByteTrace(c, x))[50 * i .. 50 * i + 50] == ByteTrace(c, x);
        }
      }
    }
  }

  /** An accepted transaction of n bytes with four distinct pins: slave select is touched
      2 n times, the clock rises and falls 16 n times each, data in is sampled 8 n times, and
      data out carries the bits of the bytes in index order, each MSB first. */
  lemma {:induction false} TransactionCounts(c: SpiConfig, txs: seq<Byte>)
    requires PinsDistinct(c)
    ensures CountOn(TransactionTrace(c, txs), c.ssPin) == 2 * |txs|
    ensures Count(TransactionTrace(c, txs), High(c.sckPin)) == 16 * |txs|
    ensures Count(TransactionTrace(c, txs), Low(c.sckPin)) == 16 * |txs|
    ensures Count(TransactionTrace(c, txs), Read(c.misoPin)) == 8 * |txs|
    ensures DrivenLevels(TransactionTrace(c, txs), c.mosiPin) == BitStream(txs)
    decreases |txs|
  {
    if |txs| != 0 {
      var init, x := txs[..|txs| - 1], txs[|txs| - 1];
      assert txs == init + [x];
      TransactionCounts(c, init);
      TransactionTraceSnoc(c, init, x);
      ByteTraceCounts(c, x);
      var prev, last := TransactionTrace(c, init), ByteTrace(c, x);
      CountOnAppend(prev, last, c.ssPin);
      CountAppend(prev, last, High(c.sckPin));
      CountAppend(prev, last, Low(c.sckPin));
      CountAppend(prev, last, Read(c.misoPin));
      DrivenLevelsAppend(prev, last, c.mosiPin);
    }
  }

  /** After an accepted transaction of at least one byte, slave select is high and the clock
      rests high. */
  lemma TransactionEndLevels(t: seq<PinEvent>, c: SpiConfig, txs: seq<Byte>)
    requires c.ssPin != c.sckPin && |txs| != 0
    ensures LastLevel(t + TransactionTrace(c, txs), c.ssPin)
    ensures LastLevel(t + TransactionTrace(c, txs), c.sckPin)
  {
    var init, x := txs[..|txs| - 1], txs[|txs| - 1];
    assert txs == init + [x];
    TransactionTraceSnoc(c, init, x);
    assert t + TransactionTrace(c, txs) == (t + TransactionTrace(c, init)) + ByteTrace(c, x);
    ByteEndLevels(t + TransactionTrace(c, init), c, x);
  }
}
