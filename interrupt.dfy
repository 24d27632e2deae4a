// The interrupt builders of part1/pkg/decoder/interrupt.go: INT with a type byte, and the
// one-byte INT 3, INTO and IRET. None of them looks at the opcode it is given.

module Interrupt {
  import opened Numeric
  import opened Decimal
  import opened Outcomes
  import opened Engine

  const InterruptName := "INT: type specified"

  /** `interruptWithType` `[11001101] [data]`: `int N` with the type byte N in decimal. */
  function InterruptWithTypeText(bytes: seq<Byte>, pos: nat): (o: Outcome<string>)
    requires pos <= |bytes|
    ensures o.Fail? <==> pos == |bytes|
    ensures o.Fail? ==> o == Fail(Missing(InterruptName, InterruptType), pos)
    ensures o.Done? ==> o.pos == pos + 1 && |o.value| >= 6 && o.value[..4] == "int " && o.value[|o.value| - 1] == '\n'
  {
    if pos == |bytes| then Fail(Missing(InterruptName, InterruptType), pos)
    else Done("int " + NatToString(bytes[pos]) + "\n", pos + 1)
  }

  /** The number between `int ` and the newline reads back as the type byte. */
  lemma InterruptTypeReadsBack(bytes: seq<Byte>, pos: nat)
    requires pos < |bytes|
    ensures var t := InterruptWithTypeText(bytes, pos).value;
      IsDigits(t[4..|t| - 1]) && DigitsValue(t[4..|t| - 1]) == bytes[pos]
  {
    var t := InterruptWithTypeText(bytes, pos).value;
    assert t[4..|t| - 1] == NatToString(bytes[pos]);
    NatToStringRoundTrip(bytes[pos]);
  }

  /** `interruptWithType`. */
  method InterruptWithType(op: Byte, d: Decoder) returns (text: string, err: Option<Error>)
    requires d.Valid()
    modifies d`pos
    ensures d.Valid()
    ensures Yields(InterruptWithTypeText(d.bytes, old(d.pos)), text, err, d.pos)
  {
    var data, ok := d.Next();
    if !ok {
      return "", Some(Missing(InterruptName, InterruptType));
    }
    text, err := "int " + NatToString(data) + "\n", None;
  }

  /** `interruptType3` `[11001100]`, `interruptOnOverflow` `[11001110]`, `interruptReturn` `[11001111]`. */
  datatype FixedInterrupt = Int3 | Into | Iret
  {
    function Opcode(): Byte
    {
      match this
      case Int3 => 0xCC
      case Into => 0xCE
      case Iret => 0xCF
    }

    function Text(): string
    {
      match this
      case Int3 => "int3\n"
      case Into => "into\n"
      case Iret => "iret\n"
    }
  }

  /** The fixed interrupt an opcode encodes, if any. */
  function FixedInterruptOf(op: Byte): (i: Option<FixedInterrupt>)
    ensures i.Some? ==> i.value.Opcode() == op
  {
    if op == 0xCC then Some(Int3) else if op == 0xCE then Some(Into) else if op == 0xCF then Some(Iret) else None
  }

  /**
   * Each fixed interrupt is recovered from its opcode, the three print differently, and none
   * prints as an `int N` with a type byte.
   */
  lemma FixedInterruptsDistinct(i: FixedInterrupt, j: FixedInterrupt, bytes: seq<Byte>, pos: nat)
    requires pos < |bytes|
    ensures FixedInterruptOf(i.Opcode()) == Some(i)
    ensures i.Text() == j.Text() <==> i == j
    ensures i.Text() != InterruptWithTypeText(bytes, pos).value
  {
    if i != j {
      assert i.Text()[1] != j.Text()[1] || i.Text()[3] != j.Text()[3];
    }
    assert i.Text()[3] != ' ';
  }
}
