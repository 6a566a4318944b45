/** The pin-event traces and result bytes of the engine's operations (Src/spi.c:30-92), as
    functions of the configuration and the data. The methods of module Spi are proved
    against these definitions. */
module SpiSpec {
  import opened SpiTypes
  import opened Pins

  /** The one-bit mask 1 << k, written out per position. */
  function Mask(k: nat): Byte
    requires k < 8
  {
    if k == 0 then 1 else Mask(k - 1) << 1
  }

  /** Bit k of x, as the source isolates it: x & (1 << k). */
  predicate Bit(x: Byte, k: nat)
    requires k < 8
  {
    x & Mask(k) != 0
  }

  /** The bits of x from the most significant (bit 7) to the least significant (bit 0). */
  function MsbBits(x: Byte): seq<bool> {
    seq(8, j requires 0 <= j < 8 => Bit(x, 7 - j))
  }

  /** Pin events of spi_init: clock low (idle for CPOL = 0), slave select high (deasserted),
      data out low. */
  function InitTrace(c: SpiConfig): seq<PinEvent> {
    [Low(c.sckPin), High(c.ssPin), Low(c.mosiPin)]
  }

  /** Pin events of spi_transmit_bit: falling clock edge, data out set, rising clock edge. */
  function TransmitTrace(c: SpiConfig, b: bool): seq<PinEvent> {
    [Low(c.sckPin), Drive(c.mosiPin, b), High(c.sckPin)]
  }

  /** Pin events of spi_receive_bit: a second, separate clock pulse, then one sample of data in. */
  function ReceiveTrace(c: SpiConfig): seq<PinEvent> {
    [Low(c.sckPin), High(c.sckPin), Read(c.misoPin)]
  }

  /** One iteration of the byte loop: transmit the bit, then receive one. */
  function BitTrace(c: SpiConfig, b: bool): seq<PinEvent> {
    TransmitTrace(c, b) + ReceiveTrace(c)
  }

  /** Pin events of the first n iterations of the byte loop, which handle bits 7 down to
      8 - n of tx. */
  function BitLoopTrace(c: SpiConfig, tx: Byte, n: nat): seq<PinEvent>
    requires n <= 8
  {
    if n == 0 then [] else BitLoopTrace(c, tx, n - 1) + BitTrace(c, Bit(tx, 8 - n))
  }

  /** Pin events of spi_transfer_byte: select asserted, one iteration per bit of tx from bit 7
      down to bit 0, select deasserted. */
  function ByteTrace(c: SpiConfig, tx: Byte): seq<PinEvent> {
    [Low(c.ssPin)] + BitLoopTrace(c, tx, 8) + [High(c.ssPin)]
  }

  /** Pin events of an accepted spi_transaction: the byte traces one after another. */
  function TransactionTrace(c: SpiConfig, txs: seq<Byte>): seq<PinEvent> {
    ByteLoopTrace(c, txs, |txs|)
  }

  /** Pin events of the first n iterations of the transaction loop. */
  function ByteLoopTrace(c: SpiConfig, txs: seq<Byte>, n: nat): seq<PinEvent>
    requires n <= |txs|
  {
    if n == 0 then [] else ByteLoopTrace(c, txs, n - 1) + ByteTrace(c, txs[n - 1])
  }

  /** The byte spi_transfer_byte assembles from the raw values of its reads: the j-th read
      sets bit 7 - j when it is nonzero. Defined read by read, as the loop ORs them in. */
  function Pack(s: seq<Byte>): Byte
    requires |s| <= 8
    decreases |s|
  {
    if |s| == 0 then 0
    else Pack(s[..|s| - 1]) | (if s[|s| - 1] != 0 then Mask(8 - |s|) else 0)
  }

  /** The values a loopback wire returns to the eight reads of a byte whose bits were sent
      MSB first: 1 for a high bit, 0 for a low one. */
  function LoopbackSamples(tx: Byte): seq<Byte> {
    seq(8, j requires 0 <= j < 8 => if Bit(tx, 7 - j) then 1 else 0)
  }

  /** One more loopback read, of the bit at position k, extends the samples of the bits above it. */
  lemma LoopbackSamplesStep(tx: Byte, got: seq<Byte>, k: nat, v: Byte)
    requires k < 8 && got == LoopbackSamples(tx)[..7 - k]
    requires v == if Bit(tx, k) then 1 else 0
    ensures got + [v] == LoopbackSamples(tx)[..8 - k]
  {
    assert LoopbackSamples(tx)[..8 - k] == LoopbackSamples(tx)[..7 - k] + [LoopbackSamples(tx)[7 - k]];
  }

  /** Concatenation regrouped: a hint for the solver at the places where a trace is extended
      by two pieces in turn. */
  lemma AppendAssoc<T>(a: seq<T>, b: seq<T>, c: seq<T>)
    ensures a + b + c == a + (b + c)
  {
  }

  /** Mask(k) is the source's 1 << k; the eight values written out. */
  lemma MaskValues(k: nat)
    requires k < 8
    ensures Mask(k) == 1 << k
    ensures Mask(k) == if k == 0 then 0x01 else if k == 1 then 0x02 else if k == 2 then 0x04 else if k == 3 then 0x08
      else if k == 4 then 0x10 else if k == 5 then 0x20 else if k == 6 then 0x40 else 0x80
  {
    if k == 0 {
    } else if k == 1 {
    } else if k == 2 {
    } else if k == 3 {
    } else if k == 4 {
    } else if k == 5 {
    } else if k == 6 {
    } else {
    }
  }

  /** A bit of an OR is set exactly when it is set in either operand. */
  lemma OrBit(x: Byte, y: Byte, k: nat)
    requires k < 8
    ensures Bit(x | y, k) <==> Bit(x, k) || Bit(y, k)
  {
  }

  /** The single-bit mask of position j has exactly bit j set. */
  lemma MaskBit(j: nat, k: nat)
    requires j < 8 && k < 8
    ensures Bit(Mask(j), k) <==> j == k
  {
    MaskValues(j);
    MaskValues(k);
  }

  /** One more read, at bit position k = 7 - |w|, ORs in that bit if it was nonzero. */
  lemma PackSnoc(w: seq<Byte>, v: Byte, k: nat)
    requires |w| < 8 && k == 7 - |w|
    ensures Pack(w + [v]) == if v != 0 then Pack(w) | Mask(k) else Pack(w)
  {
    assert (w + [v])[..|w|] == w;
  }

  /** Bit k after one more read: set before, or set by this read when it is read 7 - k. */
  lemma PackSnocBit(w: seq<Byte>, v: Byte, k: nat)
    requires |w| < 8 && k < 8
    ensures Bit(Pack(w + [v]), k) <==> Bit(Pack(w), k) || (v != 0 && |w| == 7 - k)
  {
    var j := 7 - |w|;
    PackSnoc(w, v, j);
    if v != 0 {
      var x, m := Pack(w), Mask(j);
      assert Pack(w + [v]) == x | m;
      OrBit(x, m, k);
      MaskBit(j, k);
      assert Bit(x | m, k) <==> Bit(x, k) || j == k;
    } else {
      assert Pack(w + [v]) == Pack(w);
    }
  }

  /** Bit k of the packed byte is set exactly when read 7 - k happened and was nonzero. */
  lemma {:induction false} PackBits(s: seq<Byte>, k: nat)
    requires |s| <= 8 && k < 8
    ensures Bit(Pack(s), k) <==> 7 - k < |s| && s[7 - k] != 0
    decreases |s|
  {
    if |s| == 0 {
      assert Pack(s) == 0;
    } else {
      var w := s[..|s| - 1];
      PackBits(w, k);
      assert s == w + [s[|s| - 1]];
      PackSnocBit(w, s[|s| - 1], k);
    }
  }

  /** A byte is determined by its eight bits. */
  lemma BitsDetermine(a: Byte, b: Byte)
    requires forall k :: 0 <= k < 8 ==> (Bit(a, k) <==> Bit(b, k))
    ensures a == b
  {
    assert Bit(a, 0) == Bit(b, 0) && Bit(a, 1) == Bit(b, 1);
    assert Bit(a, 2) == Bit(b, 2) && Bit(a, 3) == Bit(b, 3);
    assert Bit(a, 4) == Bit(b, 4) && Bit(a, 5) == Bit(b, 5);
    assert Bit(a, 6) == Bit(b, 6) && Bit(a, 7) == Bit(b, 7);
  }

  /** Reads that all return 0 assemble the byte 0. */
  lemma PackZeros(s: seq<Byte>)
    requires |s| <= 8
    requires forall j :: 0 <= j < |s| ==> s[j] == 0
    ensures Pack(s) == 0
  {
    forall k | 0 <= k < 8
      ensures Bit(Pack(s), k) <==> Bit(0, k)
    {
      PackBits(s, k);
    }
    BitsDetermine(Pack(s), 0);
  }

  /** Reads that echo the transmitted bits assemble the transmitted byte. */
  lemma PackLoopback(tx: Byte)
    ensures Pack(LoopbackSamples(tx)) == tx
  {
    var s := LoopbackSamples(tx);
    forall k | 0 <= k < 8
      ensures Bit(Pack(s), k) <==> Bit(tx, k)
    {
      PackBits(s, k);
      assert s[7 - k] == if Bit(tx, k) then 1 else 0;
    }
    BitsDetermine(Pack(s), tx);
  }

  /** One more loop iteration, the n-th, appends its transmit and receive traces. */
  lemma BitLoopStep(c: SpiConfig, tx: Byte, n: nat, before: seq<PinEvent>, t: seq<PinEvent>)
    requires n < 8
    requires t == before + BitLoopTrace(c, tx, n) + BitTrace(c, Bit(tx, 7 - n))
    ensures t == before + BitLoopTrace(c, tx, n + 1)
  {
  }

  /** The first n byte traces depend only on the first n bytes. */
  lemma {:induction false} ByteLoopTracePrefix(c: SpiConfig, s: seq<Byte>, u: seq<Byte>, n: nat)
    requires n <= |s| && n <= |u| && s[..n] == u[..n]
    ensures ByteLoopTrace(c, s, n) == ByteLoopTrace(c, u, n)
  {
    if n != 0 {
      assert s[..n - 1] == s[..n][..n - 1] == u[..n][..n - 1] == u[..n - 1];
      assert s[n - 1] == s[..n][n - 1] == u[..n][n - 1] == u[n - 1];
      ByteLoopTracePrefix(c, s, u, n - 1);
    }
  }

  /** One more byte extends the transaction trace by that byte's trace. */
  lemma TransactionTraceSnoc(c: SpiConfig, txs: seq<Byte>, tx: Byte)
    ensures TransactionTrace(c, txs + [tx]) == TransactionTrace(c, txs) + ByteTrace(c, tx)
  {
    assert (txs + [tx])[..|txs|] == txs[..|txs|];
    ByteLoopTracePrefix(c, txs + [tx], txs, |txs|);
  }
}
