/** The pin capability the engine drives (Src/spi.c:6-20): drive a pin high, drive it low,
    read its level. Here it is a virtual pin bank that records every operation in order
    and answers reads from a script or by echoing a driven line. */
module Pins {
  import opened SpiTypes

  /** One pin operation, in the order the engine issues them. */
  datatype PinEvent = High(pin: PinId) | Low(pin: PinId) | Read(pin: PinId)

  /** The write event that drives pin p to the given level. */
  function Drive(p: PinId, level: bool): PinEvent {
    if level then High(p) else Low(p)
  }

  /** Event e drives pin p (to either level). */
  predicate Drives(e: PinEvent, p: PinId) {
    !e.Read? && e.pin == p
  }

  /** How the pin bank answers reads.
      Scripted: the n-th read returns script[n]; once the script is used up every read
      returns 0, which is what the default read_pin does.
      Loopback: a read returns the level pin `from` is driven to (a wire from that pin). */
  datatype ReadSource = Scripted(script: seq<Byte>) | Loopback(from: PinId)

  /** The default binding: every read returns 0 (Src/spi.c:17-20). */
  const DefaultReads: ReadSource := Scripted([])

  function ScriptAt(script: seq<Byte>, n: nat): Byte {
    if n < |script| then script[n] else 0
  }

  /** Level most recently driven on pin p by trace t; low if t never drives p. */
  function LastLevel(t: seq<PinEvent>, p: PinId): bool
    decreases |t|
  {
    if |t| == 0 then false
    else if Drives(t[|t| - 1], p) then t[|t| - 1].High?
    else LastLevel(t[..|t| - 1], p)
  }

  /** The levels driven on pin p by trace t, in order. */
  function DrivenLevels(t: seq<PinEvent>, p: PinId): seq<bool>
    decreases |t|
  {
    if |t| == 0 then []
    else (if Drives(t[0], p) then [t[0].High?] else []) + DrivenLevels(t[1..], p)
  }

  /** Number of occurrences of event e in trace t. */
  function Count(t: seq<PinEvent>, e: PinEvent): nat
    decreases |t|
  {
    if |t| == 0 then 0 else (if t[0] == e then 1 else 0) + Count(t[1..], e)
  }

  /** Number of events of trace t (writes and reads) on pin p. */
  function CountOn(t: seq<PinEvent>, p: PinId): nat
    decreases |t|
  {
    if |t| == 0 then 0 else (if t[0].pin == p then 1 else 0) + CountOn(t[1..], p)
  }

  /** The level pin p is driven to, given the levels of the pins driven so far; low if never driven. */
  function LevelOf(levels: map<PinId, bool>, p: PinId): bool {
    p in levels && levels[p]
  }

  /** The value the n-th read returns, given the levels the pins are driven to at that moment. */
  function Answer(source: ReadSource, levels: map<PinId, bool>, n: nat): Byte {
    match source
    case Scripted(script) => ScriptAt(script, n)
    case Loopback(from) => if LevelOf(levels, from) then 1 else 0
  }

  lemma {:induction false} DrivenLevelsAppend(t: seq<PinEvent>, u: seq<PinEvent>, p: PinId)
    ensures DrivenLevels(t + u, p) == DrivenLevels(t, p) + DrivenLevels(u, p)
    decreases |t|
  {
    if |t| != 0 {
      assert (t + u)[0] == t[0] && (t + u)[1..] == t[1..] + u;
      DrivenLevelsAppend(t[1..], u, p);
    } else {
      assert t + u == u;
    }
  }

  lemma {:induction false} CountAppend(t: seq<PinEvent>, u: seq<PinEvent>, e: PinEvent)
    ensures Count(t + u, e) == Count(t, e) + Count(u, e)
    decreases |t|
  {
    if |t| != 0 {
      assert (t + u)[0] == t[0] && (t + u)[1..] == t[1..] + u;
      CountAppend(t[1..], u, e);
    } else {
      assert t + u == u;
    }
  }

  lemma {:induction false} CountOnAppend(t: seq<PinEvent>, u: seq<PinEvent>, p: PinId)
    ensures CountOn(t + u, p) == CountOn(t, p) + CountOn(u, p)
    decreases |t|
  {
    if |t| != 0 {
      assert (t + u)[0] == t[0] && (t + u)[1..] == t[1..] + u;
      CountOnAppend(t[1..], u, p);
    } else {
      assert t + u == u;
    }
  }

  /** The two definitions agree: the last level is the last entry of the driven levels,
      and low when the trace never drives the pin. */
  lemma {:induction false} LastLevelIsLastDriven(t: seq<PinEvent>, p: PinId)
    ensures var d := DrivenLevels(t, p);
      LastLevel(t, p) == (|d| != 0 && d[|d| - 1])
    decreases |t|
  {
    if |t| != 0 {
      var init, e := t[..|t| - 1], t[|t| - 1];
      assert t == init + [e];
      DrivenLevelsAppend(init, [e], p);
      assert DrivenLevels([e], p) == if Drives(e, p) then [e.High?] else [];
      LastLevelIsLastDriven(init, p);
    }
  }

  /** Appending one event: a write to p sets the last level, anything else keeps it. */
  lemma LastLevelSnoc(t: seq<PinEvent>, e: PinEvent, p: PinId)
    ensures LastLevel(t + [e], p) == if Drives(e, p) then e.High? else LastLevel(t, p)
  {
    assert (t + [e])[..|t|] == t;
  }

  /** A recording pin bank. `trace` is every operation so far; `levels` holds the level each
      pin driven so far is driven to; `answers` is every value a read has returned so far, so
      |answers| is the read cursor into a script. */
  class PinBank {
    const source: ReadSource
    var trace: seq<PinEvent>
    var levels: map<PinId, bool>
    var answers: seq<Byte>

    /** Each pin is at the level the trace last drove it to, and a scripted bank has answered
        from its script, in order, from the start. */
    ghost predicate Valid()
      reads this
    {
      && (forall p :: LevelOf(levels, p) == LastLevel(trace, p))
      && (source.Scripted? ==> forall n :: 0 <= n < |answers| ==> answers[n] == ScriptAt(source.script, n))
    }

    constructor (source: ReadSource)
      ensures Valid() && this.source == source && trace == [] && levels == map[] && answers == []
    {
      this.source := source;
      trace := [];
      levels := map[];
      answers := [];
    }

    /** set_pin_high */
    method SetHigh(p: PinId)
      requires Valid()
      modifies this
      ensures Valid()
      ensures trace == old(trace) + [High(p)] && levels == old(levels)[p := true] && answers == old(answers)
    {
      forall q ensures LevelOf(levels[p := true], q) == LastLevel(trace + [High(p)], q) {
        assert LevelOf(levels, q) == LastLevel(trace, q);
        LastLevelSnoc(trace, High(p), q);
      }
      trace := trace + [High(p)];
      levels := levels[p := true];
    }

    /** set_pin_low */
    method SetLow(p: PinId)
      requires Valid()
      modifies this
      ensures Valid()
      ensures trace == old(trace) + [Low(p)] && levels == old(levels)[p := false] && answers == old(answers)
    {
      forall q ensures LevelOf(levels[p := false], q) == LastLevel(trace + [Low(p)], q) {
        assert LevelOf(levels, q) == LastLevel(trace, q);
        LastLevelSnoc(trace, Low(p), q);
      }
      trace := trace + [Low(p)];
      levels := levels[p := false];
    }

    /** read_pin */
    method ReadPin(p: PinId) returns (v: Byte)
      requires Valid()
      modifies this
      ensures Valid()
      ensures v == Answer(source, levels, |old(answers)|)
      ensures trace == old(trace) + [Read(p)] && levels == old(levels) && answers == old(answers) + [v]
    {
      forall q ensures LevelOf(levels, q) == LastLevel(trace + [Read(p)], q) {
        assert LevelOf(levels, q) == LastLevel(trace, q);
        LastLevelSnoc(trace, Read(p), q);
      }
      v := Answer(source, levels, |answers|);
      trace := trace + [Read(p)];
      answers := answers + [v];
    }
  }
}
