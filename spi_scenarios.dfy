/** Whole sessions of the engine on a fresh context and pin bank: spi_init followed by
    transactions, with the pin numbers of the source's demonstration program (Src/spi.c:116-121). */
module SpiScenarios {
  import opened SpiTypes
  import opened Pins
  import opened SpiSpec
  import opened Spi
  import opened SpiProperties

  /** The demonstration program's configuration: clock 1, data out 2, data in 3, select 4. */
  const DemoConfig := SpiConfig(2, 3, 1, 4)

  /** The demonstration program's outgoing bytes. */
  const DemoData: seq<Byte> := [0x55, 0xAA, 0x12, 0x34]

  /** Allocates an array holding the given bytes. */
  method NewArray(s: seq<Byte>) returns (a: array<Byte>)
    ensures fresh(a) && a[..] == s
  {
    a := new Byte[|s|];
    var i := 0;
    while i < |s|
      invariant 0 <= i <= |s|
      invariant a[..i] == s[..i]
    {
      a[i] := s[i];
      i := i + 1;
    }
    assert a[..] == a[..|s|];
  }

  /** A fresh context and pin bank, with spi_init run on the demonstration configuration. */
  method Open(source: ReadSource) returns (ctx: SpiContext, pins: PinBank)
    ensures fresh(ctx) && fresh(pins) && ctx.Valid() && ctx.config == DemoConfig
    ensures pins.Valid() && pins.source == source && pins.trace == InitTrace(DemoConfig) && pins.answers == []
  {
    ctx := new SpiContext(DemoConfig, 0, 0, 0, false);
    pins := new PinBank(source);
    Init(ctx, DemoConfig, pins);
  }

  /** One spi_transaction of the given bytes from a fresh data array into a fresh result array. */
  method Send(ctx: SpiContext, pins: PinBank, data: seq<Byte>) returns (ok: bool, rx: seq<Byte>)
    requires pins.Valid() && |data| < 0x1_0000
    modifies pins
    ensures pins.Valid()
    ensures ok <==> |data| <= MaxBufferSize
    ensures ok ==> pins.trace == old(pins.trace) + TransactionTrace(ctx.config, data) && |rx| == |data|
    ensures ok && EchoesMosi(ctx.config, pins.source) ==> rx == data
    ensures ok && pins.source == DefaultReads ==> forall i :: 0 <= i < |rx| ==> rx[i] == 0
  {
    var txData := NewArray(data);
    var rxData := new Byte[|data|];
    assert txData[..|data|] == data;
    ok := Transaction(ctx, pins, txData, rxData, |data|);
    assert rxData[..] == rxData[..|data|];
    rx := rxData[..];
  }

  /** The demonstration program's setup with the default read_pin, for any data within the
      capacity: the transaction is accepted, every byte received is 0, and the pins see the
      initialisation followed by one 50-event byte transfer per byte. */
  method DefaultReadsSession(data: seq<Byte>) returns (ok: bool, rx: seq<Byte>, trace: seq<PinEvent>)
    requires |data| <= MaxBufferSize
    ensures ok && |rx| == |data| && forall i :: 0 <= i < |rx| ==> rx[i] == 0
    ensures trace == InitTrace(DemoConfig) + TransactionTrace(DemoConfig, data)
    ensures |trace| == 3 + 50 * |data|
  {
    var ctx, pins := Open(DefaultReads);
    ok, rx := Send(ctx, pins, data);
    TransactionTraceSlices(DemoConfig, data);
    trace := pins.trace;
  }

  /** The demonstration bytes over a loopback wire from data out to data in: the bytes come
      back unchanged. */
  method LoopbackSession() returns (ok: bool, rx: seq<Byte>)
    ensures ok && rx == DemoData
  {
    var ctx, pins := Open(Loopback(DemoConfig.mosiPin));
    ok, rx := Send(ctx, pins, DemoData);
  }

  /** The result array may be the data array: over a loopback wire the bytes are overwritten
      with themselves. */
  method InPlaceLoopbackSession() returns (ok: bool, data: seq<Byte>)
    ensures ok && data == DemoData
  {
    var ctx := new SpiContext(DemoConfig, 0, 0, 0, false);
    var pins := new PinBank(Loopback(DemoConfig.mosiPin));
    Init(ctx, DemoConfig, pins);
    var buffer := NewArray(DemoData);
    ok := Transaction(ctx, pins, buffer, buffer, 4);
    assert buffer[..] == buffer[..4];
    data := buffer[..];
  }

  /** Two transactions in a row on one context emit what one transaction of both byte
      sequences emits, and leave the clock resting high. */
  method BackToBackSession(a: seq<Byte>, b: seq<Byte>) returns (ok1: bool, ok2: bool, trace: seq<PinEvent>)
    requires |a| <= MaxBufferSize && |b| <= MaxBufferSize
    ensures ok1 && ok2
    ensures trace == InitTrace(DemoConfig) + TransactionTrace(DemoConfig, a + b)
    ensures |a + b| != 0 ==> LastLevel(trace, DemoConfig.sckPin) && LastLevel(trace, DemoConfig.ssPin)
  {
    var ctx, pins := Open(DefaultReads);
    var rxA, rxB;
    ok1, rxA := Send(ctx, pins, a);
    ok2, rxB := Send(ctx, pins, b);
    trace := pins.trace;
    TransactionTraceAppend(DemoConfig, a, b);
    AppendAssoc(InitTrace(DemoConfig), TransactionTrace(DemoConfig, a), TransactionTrace(DemoConfig, b));
    if |a + b| != 0 {
      TransactionEndLevels(InitTrace(DemoConfig), DemoConfig, a + b);
    }
  }

  /** A length over the capacity is refused: no pin activity after the initialisation and the
      result array keeps its contents. */
  method OversizeSession() returns (ok: bool, rx: seq<Byte>, trace: seq<PinEvent>)
    ensures !ok && rx == [7, 7, 7, 7]
    ensures trace == InitTrace(DemoConfig)
  {
    var ctx := new SpiContext(DemoConfig, 0, 0, 0, false);
    var pins := new PinBank(DefaultReads);
    Init(ctx, DemoConfig, pins);
    var txData := NewArray(DemoData);
    var rxData := NewArray([7, 7, 7, 7]);
    ok := Transaction(ctx, pins, txData, rxData, 300);
    rx := rxData[..];
    trace := pins.trace;
  }
}
