// Results of reading the instruction stream: a value and the cursor after it, or an error.

module Outcomes {
  import opened Numeric

  datatype Option<T> = None | Some(value: T)

  /** The part of an instruction that a failed read was looking for. */
  datatype Field =
    | Operand
    | DirectAddressLow | DirectAddressHigh
    | Displacement | DisplacementLow | DisplacementHigh
    | Immediate | ImmediateLow | ImmediateHigh
    | Address | AddressLow | AddressHigh
    | JumpOffset
    | InterruptType
    | PortNumber

  /**
   * The errors the builders return. Each carries the instruction name its message quotes;
   * `stated` is the bit pattern the message quotes.
   */
  datatype Error =
    | Missing(instruction: string, field: Field)
    | BadReg(instruction: string, stated: nat)
    | BadRegHighBit(instruction: string)
    | BadOperand(instruction: string, stated: nat)

  /** A read either produced a value, leaving the cursor at `pos`, or failed with the cursor at `pos`. */
  datatype Outcome<T> = Done(value: T, pos: nat) | Fail(error: Error, pos: nat)

  /** A Go `(value, error)` pair and the cursor after the call agree with an outcome. */
  predicate Returns<T(==)>(o: Outcome<T>, value: T, err: Option<Error>, pos: nat)
  {
    pos == o.pos &&
    match o
    case Done(v, _) => err == None && value == v
    case Fail(e, _) => err == Some(e)
  }

  /** A builder's `(string, error)` pair agrees with an outcome; on an error the text is empty. */
  predicate Yields(o: Outcome<string>, text: string, err: Option<Error>, pos: nat)
  {
    Returns(o, text, err, pos) && (o.Fail? ==> text == "")
  }

  /** Why a decode loop ended. */
  datatype Stop =
    | Exhausted                  // `next` found no further opcode: the loop's normal end
    | Stopped(error: Error)      // a builder returned an error
    | Panicked(operation: Byte)  // no arm matched and the loop panics
    | Unmodelled(operation: Byte) // the arm reached calls `pattern` with the empty pattern

  /** What a decode loop produced: the appended text, why it ended and where the cursor stood. */
  datatype Trace = Trace(text: string, stop: Stop, pos: nat)

  /** One instruction's text in front of the rest of a run. */
  function Then(prefix: string, rest: Trace): Trace
  {
    Trace(prefix + rest.text, rest.stop, rest.pos)
  }

  /** Two instructions' texts in front of a run are their concatenation in front of it. */
  lemma ThenThen(first: string, second: string, rest: Trace)
    ensures Then(first, Then(second, rest)) == Then(first + second, rest)
  {
    assert first + (second + rest.text) == (first + second) + rest.text;
  }
}
