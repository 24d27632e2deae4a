// The processor-control builders of part1/pkg/decoder/processor-control.go: nine one-byte
// opcodes, each printed as its mnemonic. None of them reads the decoder.

module ProcessorControl {
  import opened Numeric
  import opened Outcomes

  datatype ControlOp = Clc | Cmc | Stc | Cld | Std | Cli | Sti | Hlt | Wait
  {
    function Opcode(): Byte
    {
      match this
      case Clc => 0xF8
      case Cmc => 0xF5
      case Stc => 0xF9
      case Cld => 0xFC
      case Std => 0xFD
      case Cli => 0xFA
      case Sti => 0xFB
      case Hlt => 0xF4
      case Wait => 0x9B
    }

    function Mnemonic(): string
    {
      match this
      case Clc => "clc"
      case Cmc => "cmc"
      case Stc => "stc"
      case Cld => "cld"
      case Std => "std"
      case Cli => "cli"
      case Sti => "sti"
      case Hlt => "hlt"
      case Wait => "wait"
    }

    /** What the builder returns: the mnemonic and a newline. */
    function Text(): string
    {
      Mnemonic() + "\n"
    }
  }

  /** The processor-control operation an opcode encodes, if any. */
  function ControlOpOf(op: Byte): (c: Option<ControlOp>)
    ensures c.Some? ==> c.value.Opcode() == op
  {
    match op
    case 0xF8 => Some(Clc)
    case 0xF5 => Some(Cmc)
    case 0xF9 => Some(Stc)
    case 0xFC => Some(Cld)
    case 0xFD => Some(Std)
    case 0xFA => Some(Cli)
    case 0xFB => Some(Sti)
    case 0xF4 => Some(Hlt)
    case 0x9B => Some(Wait)
    case _ => None
  }

  /** Each operation is recovered from its opcode and from its text: no two share either. */
  lemma ControlOpRoundTrip(c: ControlOp, e: ControlOp)
    ensures ControlOpOf(c.Opcode()) == Some(c)
    ensures c.Text() == e.Text() <==> c == e
    ensures c.Opcode() == e.Opcode() <==> c == e
  {
    if c.Text() == e.Text() {
      assert c.Mnemonic() == c.Text()[..|c.Text()| - 1];
      assert e.Mnemonic() == e.Text()[..|e.Text()| - 1];
      assert c.Mnemonic() == e.Mnemonic();
    }
  }
}
