/** Constants and types of the SPI engine's header (Inc/spi.h). */
module SpiTypes {

  /** An 8-bit unsigned value (the header's uint8_t) used as data: bytes sent and received,
      raw pin reads. Bit operations as in the source. */
  type Byte = bv8

  /** An 8-bit unsigned value (the header's uint8_t) used as a pin number. */
  type PinId = x: int | 0 <= x < 0x100

  /** A 16-bit unsigned value (the header's uint16_t). */
  type UInt16 = x: int | 0 <= x < 0x1_0000

  /** Capacity of each of the context's buffers, and the largest transaction length accepted. */
  const MaxBufferSize: nat := 256

  /** Nominal clock frequency in Hz; it only sizes the busy-wait delay, which has no observable effect. */
  const ClockFrequency: nat := 1_000_000

  /** The SPI mode number: clock polarity CPOL = 0 and clock phase CPHA = 0.
      The configuration has no field for either; the mode is fixed. */
  const Mode: nat := 0

  /** The clock polarity of the mode, the clock's idle level (SpiProperties.InitIdleLevels). */
  const ClockPolarity: nat := Mode / 2

  /** The four pin numbers the engine drives or samples. Nothing requires them to differ. */
  datatype SpiConfig = SpiConfig(mosiPin: PinId, misoPin: PinId, sckPin: PinId, ssPin: PinId)

  /** The four pins are pairwise different physical lines. */
  predicate PinsDistinct(c: SpiConfig) {
    && c.mosiPin != c.misoPin && c.mosiPin != c.sckPin && c.mosiPin != c.ssPin
    && c.misoPin != c.sckPin && c.misoPin != c.ssPin
    && c.sckPin != c.ssPin
  }

  /** The engine's state record. The buffers are embedded in the record in the source,
      so each is a separate array of exactly MaxBufferSize bytes that is never replaced. */
  class SpiContext {
    var config: SpiConfig
    const txBuffer: array<Byte>
    const rxBuffer: array<Byte>
    var txLength: UInt16
    var rxLength: UInt16
    var currentBit: UInt16
    var transmissionComplete: bool

    ghost predicate Valid()
      reads this
    {
      txBuffer.Length == MaxBufferSize && rxBuffer.Length == MaxBufferSize && txBuffer != rxBuffer
    }

    /** Allocates a context whose scalar fields hold whatever values the storage happened to hold
        (they are parameters here); initialising them is the engine's Init operation. */
    constructor (config: SpiConfig, txLength: UInt16, rxLength: UInt16, currentBit: UInt16, complete: bool)
      ensures Valid() && fresh(txBuffer) && fresh(rxBuffer)
      ensures this.config == config && this.txLength == txLength && this.rxLength == rxLength
      ensures this.currentBit == currentBit && transmissionComplete == complete
    {
      this.config := config;
      txBuffer := new Byte[MaxBufferSize];
      rxBuffer := new Byte[MaxBufferSize];
      this.txLength := txLength;
      this.rxLength := rxLength;
      this.currentBit := currentBit;
      transmissionComplete := complete;
    }
  }
}
