// The handler protocol shared by the parser, Value::writeTo, Document and the writers:
// one call per event, each answering whether to go on.

module Handler {
  import opened Arith

  /** A binary64 value, carried as its bit pattern. */
  datatype Double = Double(bits: U64)

  const QUIET_NAN: Double := Double(0x7FF8_0000_0000_0000)
  const INFINITY: Double := Double(0x7FF0_0000_0000_0000)

  /** All exponent bits set: an infinity or a NaN. */
  predicate IsNonFinite(d: Double)
  {
    (d.bits / 0x10_0000_0000_0000) % 0x800 == 0x7FF
  }

  /** std::isinf: all exponent bits set and no fraction bits, of either sign. */
  predicate IsInf(d: Double)
  {
    IsNonFinite(d) && d.bits % 0x10_0000_0000_0000 == 0
  }

  /** std::isnan: all exponent bits set and some fraction bit. */
  predicate IsNaN(d: Double)
  {
    IsNonFinite(d) && d.bits % 0x10_0000_0000_0000 != 0
  }

  lemma {:induction false} SpecialValues()
    ensures IsNaN(QUIET_NAN) && !IsInf(QUIET_NAN)
    ensures IsInf(INFINITY) && !IsNaN(INFINITY)
    ensures IsInf(Double(0xFFF0_0000_0000_0000))
  {
  }

  /** The handler calls, with their arguments. */
  datatype Event =
    | NullEvent
    | BoolEvent(b: bool)
    | Int32Event(i32: I32)
    | Int64Event(i64: I64)
    | DoubleEvent(d: Double)
    | StringEvent(s: seq<char>)
    | KeyEvent(key: seq<char>)
    | StartObjectEvent
    | EndObjectEvent
    | StartArrayEvent
    | EndArrayEvent

  /**
   * A handler under test: it records every call it receives, and its answer to a call is
   * a fixed function of everything it has received so far, that call included.
   */
  class Sink {
    var trace: seq<Event>
    const accept: seq<Event> -> bool

    constructor(accept: seq<Event> -> bool)
      ensures trace == [] && this.accept == accept
    {
      trace := [];
      this.accept := accept;
    }

    method Handle(e: Event) returns (ok: bool)
      modifies this
      ensures trace == old(trace) + [e]
      ensures ok == accept(trace)
    {
      trace := trace + [e];
      ok := accept(trace);
    }
  }
}
