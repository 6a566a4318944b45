/** The bit-banged SPI master engine (Src/spi.c:30-92). Every operation drives the pins
    through a PinBank, whose recorded trace is the engine's observable behaviour; the
    contracts tie each new trace to the functions of module SpiSpec. */
module Spi {
  import opened SpiTypes
  import opened Pins
  import opened SpiSpec

  /** spi_init: stores the configuration, clears the counters and the completion flag, and
      drives each line to its idle level. The buffers are left as they are. */
  method Init(ctx: SpiContext, config: SpiConfig, pins: PinBank)
    requires pins.Valid()
    modifies ctx, pins
    ensures pins.Valid()
    ensures ctx.config == config
    ensures ctx.txLength == 0 && ctx.rxLength == 0 && ctx.currentBit == 0
    ensures !ctx.transmissionComplete
    ensures old(ctx.Valid()) ==> ctx.Valid()
    ensures pins.trace == old(pins.trace) + InitTrace(config)
    ensures pins.levels == old(pins.levels)[config.sckPin := false][config.ssPin := true][config.mosiPin := false]
    ensures pins.answers == old(pins.answers)
  {
    ctx.config := config;
    ctx.txLength := 0;
    ctx.rxLength := 0;
    ctx.currentBit := 0;
    ctx.transmissionComplete := false;

    pins.SetLow(config.sckPin);
    pins.SetHigh(config.ssPin);
    pins.SetLow(config.mosiPin);
  }

  /** spi_transmit_bit: one clock pulse that latches `bit` on data out. No read. */
  method TransmitBit(ctx: SpiContext, pins: PinBank, bit: bool)
    requires pins.Valid()
    modifies pins
    ensures pins.Valid()
    ensures pins.trace == old(pins.trace) + TransmitTrace(ctx.config, bit)
    ensures pins.levels == old(pins.levels)[ctx.config.sckPin := false][ctx.config.mosiPin := bit][ctx.config.sckPin := true]
    ensures pins.answers == old(pins.answers)
    ensures ctx.config.mosiPin != ctx.config.sckPin ==> LevelOf(pins.levels, ctx.config.mosiPin) == bit
  {
    pins.SetLow(ctx.config.sckPin);
    if bit {
      pins.SetHigh(ctx.config.mosiPin);
    } else {
      pins.SetLow(ctx.config.mosiPin);
    }
    pins.SetHigh(ctx.config.sckPin);
  }

  /** spi_receive_bit: a clock pulse of its own, then one read of data in; true iff the
      value read is nonzero. */
  method ReceiveBit(ctx: SpiContext, pins: PinBank) returns (bit: bool)
    requires pins.Valid()
    modifies pins
    ensures pins.Valid()
    ensures pins.trace == old(pins.trace) + ReceiveTrace(ctx.config)
    ensures pins.levels == old(pins.levels)[ctx.config.sckPin := false][ctx.config.sckPin := true]
    ensures pins.answers == old(pins.answers) + [Answer(pins.source, pins.levels, |old(pins.answers)|)]
    ensures bit <==> pins.answers[|pins.answers| - 1] != 0
    ensures pins.source.Loopback? && pins.source.from != ctx.config.sckPin ==>
      pins.answers[|pins.answers| - 1] == if LevelOf(old(pins.levels), pins.source.from) then 1 else 0
  {
    pins.SetLow(ctx.config.sckPin);
    pins.SetHigh(ctx.config.sckPin);
    var level := pins.ReadPin(ctx.config.misoPin);
    bit := level != 0;
  }

  /** Reads answered by a loopback wire from data out, with the clock on another pin. */
  predicate EchoesMosi(c: SpiConfig, source: ReadSource) {
    source == Loopback(c.mosiPin) && c.sckPin != c.mosiPin
  }

  /** One iteration of spi_transfer_byte's loop: transmit bit k of tx, then receive one bit. */
  method ExchangeBit(ctx: SpiContext, pins: PinBank, tx: Byte, k: nat) returns (sampled: bool)
    requires pins.Valid() && k < 8
    modifies pins
    ensures pins.Valid()
    ensures pins.trace == old(pins.trace) + BitTrace(ctx.config, Bit(tx, k))
    ensures |pins.answers| == |old(pins.answers)| + 1
    ensures pins.answers == old(pins.answers) + [pins.answers[|old(pins.answers)|]]
    ensures sampled <==> pins.answers[|old(pins.answers)|] != 0
    ensures EchoesMosi(ctx.config, pins.source) ==> pins.answers[|old(pins.answers)|] == if Bit(tx, k) then 1 else 0
  {
    TransmitBit(ctx, pins, Bit(tx, k));
    sampled := ReceiveBit(ctx, pins);
  }

  /** The loop of spi_transfer_byte: for bit 7 down to bit 0, transmit that bit of tx, then
      receive one bit and OR it in at the same position. The result packs the eight reads
      MSB first. */
  method ShiftBits(ctx: SpiContext, pins: PinBank, tx: Byte) returns (rx: Byte)
    requires pins.Valid()
    modifies pins
    ensures pins.Valid()
    ensures pins.trace == old(pins.trace) + BitLoopTrace(ctx.config, tx, 8)
    ensures |pins.answers| == |old(pins.answers)| + 8
    ensures pins.answers[..|old(pins.answers)|] == old(pins.answers)
    ensures rx == Pack(pins.answers[|old(pins.answers)|..])
    ensures EchoesMosi(ctx.config, pins.source) ==> pins.answers[|old(pins.answers)|..] == LoopbackSamples(tx)
  {
    ghost var t0, a0 := pins.trace, pins.answers;
    ghost var echo := EchoesMosi(ctx.config, pins.source);
    ghost var got: seq<Byte> := [];
    var c := ctx.config;
    rx := 0;
    var bit: int := 7;
    while bit >= 0
      invariant -1 <= bit <= 7
      invariant pins.Valid()
      invariant pins.trace == t0 + BitLoopTrace(c, tx, 7 - bit)
      invariant pins.answers == a0 + got && |got| == 7 - bit
      invariant rx == Pack(got)
      invariant echo ==> got == LoopbackSamples(tx)[..7 - bit]
    {
      ghost var n := |pins.answers|;
      var sampled := ExchangeBit(ctx, pins, tx, bit);
      BitLoopStep(c, tx, 7 - bit, t0, pins.trace);
      ghost var v := pins.answers[n];
      AppendAssoc(a0, got, [v]);
      PackSnoc(got, v, bit);
      if sampled {
        rx := rx | Mask(bit);
      }
      if echo {
        LoopbackSamplesStep(tx, got, bit, v);
      }
      got := got + [v];
      bit := bit - 1;
    }
    assert pins.answers[|a0|..] == got;
  }

  /** spi_transfer_byte: select asserted, the bit loop, select deasserted. */
  method TransferByte(ctx: SpiContext, pins: PinBank, tx: Byte) returns (rx: Byte)
    requires pins.Valid()
    modifies pins
    ensures pins.Valid()
    ensures pins.trace == old(pins.trace) + ByteTrace(ctx.config, tx)
    ensures |pins.answers| == |old(pins.answers)| + 8
    ensures pins.answers[..|old(pins.answers)|] == old(pins.answers)
    ensures rx == Pack(pins.answers[|old(pins.answers)|..])
    ensures EchoesMosi(ctx.config, pins.source) ==> rx == tx
    ensures pins.source == DefaultReads ==> rx == 0
  {
    ghost var a0 := pins.answers;
    pins.SetLow(ctx.config.ssPin);
    rx := ShiftBits(ctx, pins, tx);
    pins.SetHigh(ctx.config.ssPin);
    if EchoesMosi(ctx.config, pins.source) {
      PackLoopback(tx);
    }
    if pins.source == DefaultReads {
      DefaultReadsLast(pins, |a0|);
    }
  }

  /** A bank bound to the default read function has answered 0 to every read, so the byte
      assembled from its last eight reads is 0. */
  lemma DefaultReadsLast(pins: PinBank, a0: nat)
    requires pins.Valid() && pins.source == DefaultReads && a0 + 8 == |pins.answers|
    ensures Pack(pins.answers[a0..]) == 0
  {
    PackZeros(pins.answers[a0..]);
  }

  /** The raw reads of byte i of a transaction whose first read was read number a0. */
  ghost function ByteReads(answers: seq<Byte>, a0: nat, i: nat): seq<Byte>
    requires a0 + 8 * i + 8 <= |answers|
  {
    answers[a0 + 8 * i .. a0 + 8 * i + 8]
  }

  /** A bank bound to the default read function has answered 0 to every read, so each
      byte assembled from its reads is 0. */
  lemma DefaultReadsZero(pins: PinBank, a0: nat, n: nat)
    requires pins.Valid() && pins.source == DefaultReads && a0 + 8 * n <= |pins.answers|
    ensures forall j :: 0 <= j < n ==> Pack(ByteReads(pins.answers, a0, j)) == 0
  {
    forall j | 0 <= j < n
      ensures Pack(ByteReads(pins.answers, a0, j)) == 0
    {
      PackZeros(ByteReads(pins.answers, a0, j));
    }
  }

  /** Eight more reads leave the earlier bytes' reads as they were and are the reads of the
      next byte. */
  lemma ByteReadsExtend(a0: nat, before: seq<Byte>, after: seq<Byte>, i: nat)
    requires |before| == a0 + 8 * i && |after| == |before| + 8 && after[..|before|] == before
    ensures forall j :: 0 <= j < i ==> ByteReads(after, a0, j) == ByteReads(before, a0, j)
    ensures ByteReads(after, a0, i) == after[|before|..]
    ensures after[..a0] == before[..a0]
  {
    forall j | 0 <= j < i
      ensures ByteReads(after, a0, j) == ByteReads(before, a0, j)
    {
      assert a0 + 8 * j + 8 <= |before|;
    }
  }

  /** The body of spi_transaction's loop: byte i of the result is the transfer of byte i of the data. */
  method TransferAt(ctx: SpiContext, pins: PinBank, txData: array<Byte>, rxData: array<Byte>, i: nat)
    requires pins.Valid() && i < txData.Length && i < rxData.Length
    modifies pins, rxData
    ensures pins.Valid()
    ensures pins.trace == old(pins.trace) + ByteTrace(ctx.config, old(txData[i]))
    ensures |pins.answers| == |old(pins.answers)| + 8
    ensures pins.answers[..|old(pins.answers)|] == old(pins.answers)
    ensures rxData[i] == Pack(pins.answers[|old(pins.answers)|..])
    ensures EchoesMosi(ctx.config, pins.source) ==> rxData[i] == old(txData[i])
    ensures forall j :: 0 <= j < rxData.Length && j != i ==> rxData[j] == old(rxData[j])
    ensures txData != rxData ==> txData[..] == old(txData[..])
  {
    rxData[i] := TransferByte(ctx, pins, txData[i]);
  }

  /** The state after the first i iterations of spi_transaction's loop, which started with
      trace t0, reads a0, result array contents rx0 and data array contents tx0, and sends
      the bytes txs. */
  ghost predicate Transferred(c: SpiConfig, pins: PinBank, txData: array<Byte>, rxData: array<Byte>,
                              txs: seq<Byte>, t0: seq<PinEvent>, a0: seq<Byte>, rx0: seq<Byte>, tx0: seq<Byte>, i: nat)
    reads pins, txData, rxData
  {
    && i <= |txs| <= txData.Length && |txs| <= rxData.Length && |rx0| == rxData.Length && |tx0| == txData.Length
    && pins.Valid()
    && |pins.answers| == |a0| + 8 * i && pins.answers[..|a0|] == a0
    && (forall j {:trigger txData[j]} :: i <= j < |txs| ==> txData[j] == txs[j])
    && pins.trace == t0 + ByteLoopTrace(c, txs, i)
    && (forall j :: 0 <= j < i ==> rxData[j] == Pack(ByteReads(pins.answers, |a0|, j)))
    && (EchoesMosi(c, pins.source) ==> forall j {:trigger rxData[j]} :: 0 <= j < i ==> rxData[j] == txs[j])
    && (forall j :: i <= j < rxData.Length ==> rxData[j] == rx0[j])
    && (txData != rxData ==> txData[..] == tx0)
  }

  /** One iteration of spi_transaction's loop: byte i of the result is the transfer of byte i of the data. */
  method TransferNext(ctx: SpiContext, pins: PinBank, txData: array<Byte>, rxData: array<Byte>,
                      ghost txs: seq<Byte>, ghost t0: seq<PinEvent>, ghost a0: seq<Byte>, ghost rx0: seq<Byte>, ghost tx0: seq<Byte>, i: nat)
    requires i < |txs| && Transferred(ctx.config, pins, txData, rxData, txs, t0, a0, rx0, tx0, i)
    modifies pins, rxData
    ensures Transferred(ctx.config, pins, txData, rxData, txs, t0, a0, rx0, tx0, i + 1)
  {
    ghost var before := pins.answers;
    assert txData[i] == txs[i];
    TransferAt(ctx, pins, txData, rxData, i);
    AppendAssoc(t0, ByteLoopTrace(ctx.config, txs, i), ByteTrace(ctx.config, txs[i]));
    ByteReadsExtend(|a0|, before, pins.answers, i);
  }

  /** spi_transaction: a length over the capacity is refused before any pin activity;
      otherwise byte i of the result is the transfer of byte i of the data, in index order.
      The result array may be the data array itself. */
  method Transaction(ctx: SpiContext, pins: PinBank, txData: array<Byte>, rxData: array<Byte>, length: UInt16)
    returns (ok: bool)
    requires pins.Valid()
    requires length <= MaxBufferSize ==> length <= txData.Length && length <= rxData.Length
    modifies pins, rxData
    ensures pins.Valid()
    ensures ok <==> length <= MaxBufferSize
    ensures !ok ==> pins.trace == old(pins.trace) && pins.answers == old(pins.answers) && rxData[..] == old(rxData[..])
    ensures ok ==> |pins.answers| == |old(pins.answers)| + 8 * length
    ensures pins.answers[..|old(pins.answers)|] == old(pins.answers)
    ensures ok ==> pins.trace == old(pins.trace) + TransactionTrace(ctx.config, old(txData[..length]))
    ensures ok ==> forall i :: 0 <= i < length ==> rxData[i] == Pack(ByteReads(pins.answers, |old(pins.answers)|, i))
    ensures ok && EchoesMosi(ctx.config, pins.source) ==> rxData[..length] == old(txData[..length])
    ensures ok ==> forall i :: length <= i < rxData.Length ==> rxData[i] == old(rxData[i])
    ensures ok && pins.source == DefaultReads ==> forall i :: 0 <= i < length ==> rxData[i] == 0
    ensures txData != rxData ==> txData[..] == old(txData[..])
  {
    if length > MaxBufferSize {
      return false;
    }
    ghost var t0, a0, rx0, tx0 := pins.trace, pins.answers, rxData[..], txData[..];
    ghost var txs := txData[..length];
    var i: UInt16 := 0;
    while i < length
      invariant 0 <= i <= length
      invariant Transferred(ctx.config, pins, txData, rxData, txs, t0, a0, rx0, tx0, i as nat)
    {
      TransferNext(ctx, pins, txData, rxData, txs, t0, a0, rx0, tx0, i as nat);
      i := i + 1;
    }
    if pins.source == DefaultReads {
      DefaultReadsZero(pins, |a0|, length);
    }
    return true;
  }
}
