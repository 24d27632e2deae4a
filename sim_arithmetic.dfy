// The arithmetic builders of performance-aware-programming/sim8086/pkg/decoder/arithmetic.go:
// the one-byte adjusts and conversions, AAM and AAD with their fixed second byte, the ADD, ADC,
// SUB, SBB and CMP forms through the package helpers, DEC, and the NEG/MUL/IMUL/DIV/IDIV group.
// `incRegOrMem` and `incReg` are part1's, message for message, and are Arithmetic's members.

module SimArithmetic {
  import opened Numeric
  import opened Decimal
  import opened Outcomes
  import opened Engine
  import opened Forms

  /** The one-byte adjusts and conversions. */
  datatype Adjust = Aaa | Daa | Aas | Das | Cbw | Cwd
  {
    function Opcode(): Byte
    {
      match this
      case Aaa => 0x37
      case Daa => 0x27
      case Aas => 0x3F
      case Das => 0x2F
      case Cbw => 0x98
      case Cwd => 0x99
    }

    function Text(): string
    {
      match this
      case Aaa => "aaa\n"
      case Daa => "daa\n"
      case Aas => "aas\n"
      case Das => "das\n"
      case Cbw => "cbw\n"
      case Cwd => "cwd\n"
    }
  }

  /** The adjust or conversion an opcode encodes, if any. */
  function AdjustOf(op: Byte): (a: Option<Adjust>)
    ensures a.Some? ==> a.value.Opcode() == op
  {
    match op
    case 0x37 => Some(Aaa)
    case 0x27 => Some(Daa)
    case 0x3F => Some(Aas)
    case 0x2F => Some(Das)
    case 0x98 => Some(Cbw)
    case 0x99 => Some(Cwd)
    case _ => None
  }

  /** Each adjust is recovered from its opcode, and no two print alike. */
  lemma AdjustRoundTrip(a: Adjust, b: Adjust)
    ensures AdjustOf(a.Opcode()) == Some(a)
    ensures a.Text() == b.Text() <==> a == b
  {
    if a != b {
      assert a.Text()[0] != b.Text()[0] || a.Text()[2] != b.Text()[2];
    }
  }

  /** AAM `[11010100] [00001010]` and AAD `[11010101] [00001010]`. */
  datatype AsciiAdjust = Aam | Aad
  {
    function Name(): string
    {
      match this
      case Aam => "AAM"
      case Aad => "AAD"
    }

    function Text(): string
    {
      match this
      case Aam => "aam\n"
      case Aad => "aad\n"
    }
  }

  /** `aam`/`aad`: one byte follows, and it must be 0b00001010. */
  function AsciiAdjustText(a: AsciiAdjust, bytes: seq<Byte>, pos: nat): (o: Outcome<string>)
    requires pos <= |bytes|
    ensures pos == |bytes| ==> o == Fail(Missing(a.Name(), Operand), pos)
    ensures pos < |bytes| ==> o.pos == pos + 1
    ensures o.Done? <==> pos < |bytes| && bytes[pos] == 0x0A
    ensures o.Done? ==> o.value == a.Text()
    ensures pos < |bytes| && bytes[pos] != 0x0A ==> o.error == BadOperand(a.Name(), 0x0A)
  {
    if pos == |bytes| then Fail(Missing(a.Name(), Operand), pos)
    else if bytes[pos] != 0x0A then Fail(BadOperand(a.Name(), 0x0A), pos + 1)
    else Done(a.Text(), pos + 1)
  }

  /** `aam`, `aad`. */
  method AsciiAdjustInstruction(a: AsciiAdjust, op: Byte, d: Decoder) returns (text: string, err: Option<Error>)
    requires d.Valid()
    modifies d`pos
    ensures d.Valid()
    ensures Yields(AsciiAdjustText(a, d.bytes, old(d.pos)), text, err, d.pos)
  {
    var next, ok := d.Next();
    if !ok {
      return "", Some(Missing(a.Name(), Operand));
    }
    if next != 0x0A {
      return "", Some(BadOperand(a.Name(), 0x0A));
    }
    text, err := a.Text(), None;
  }

  /** `addRegOrMemToReg`, `adcRegOrMemToReg`, `subRegOrMemFromReg`, `sbbRegOrMemFromReg`, `cmpRegOrMemWithReg`. */
  method AluRegOrMemWithReg(alu: AluOp, op: Byte, d: Decoder) returns (text: string, err: Option<Error>)
    requires d.Valid()
    modifies d`pos
    ensures d.Valid()
    ensures Yields(RegMemWithReg(alu.Mnemonic(), alu.RegMemName(), op, d.bytes, old(d.pos)), text, err, d.pos)
  {
    var dest, src;
    dest, src, err := RegOrMemWithReg(d, alu.RegMemName(), op);
    if err.Some? {
      return "", err;
    }
    text := alu.Mnemonic() + " " + dest + ", " + src + "\n";
  }

  /** `addImmediateToRegOrMem` and its ADC/SUB/SBB/CMP twins. */
  method AluImmediateWithRegOrMem(alu: AluOp, op: Byte, d: Decoder) returns (text: string, err: Option<Error>)
    requires d.Valid()
    modifies d`pos
    ensures d.Valid()
    ensures Yields(ImmediateToRm(alu.Mnemonic(), alu.Extension(), alu.ImmediateName(), true, op, d.bytes, old(d.pos)),
                   text, err, d.pos)
  {
    text, err := BuildImmediateWithRegOrMemArithmeticInstruction(alu.Mnemonic(), alu.Extension(), alu.ImmediateName(), op, d);
  }

  /** `addImmediateToAccumulator` and its ADC/SUB/SBB/CMP twins. */
  method AluImmediateWithAccumulator(alu: AluOp, op: Byte, d: Decoder) returns (text: string, err: Option<Error>)
    requires d.Valid()
    modifies d`pos
    ensures d.Valid()
    ensures Yields(AccumulatorWithImmediate(alu.Mnemonic(), alu.AccumulatorName(), op, d.bytes, old(d.pos)),
                   text, err, d.pos)
  {
    var regName, value;
    regName, value, err := ImmediateWithAccumulator(d, alu.AccumulatorName(), op);
    if err.Some? {
      return "", err;
    }
    text := alu.Mnemonic() + " " + regName + ", " + NatToString(value) + "\n";
  }

  /**
   * With S = 1 the immediate form reads one byte whatever W says and prints it sign-extended, so
   * `[10000011] [11|000|000] [FF]` is `add ax, -1` and likewise for every ALU operation's extension.
   */
  lemma SignExtendedImmediate(mnemonic: string, ext: Field3, name: string, op: Byte, bytes: seq<Byte>, pos: nat)
    requires Bit0(op) == 1 && Bit1(op) == 1
    requires pos + 2 <= |bytes| && bytes[pos] == OperandByte(RegisterMode, ext, 0)
    ensures ImmediateToRm(mnemonic, ext, name, true, op, bytes, pos) ==
      Done(mnemonic + " ax, " + IntToString(Int8(bytes[pos + 1])) + "\n", pos + 2)
  {
    var f := ParseOperand(bytes[pos]);
    assert f == (RegisterMode, ext, 0);
    assert ModRmLength(bytes[pos]) == 1;
    var o := ImmediateToRm(mnemonic, ext, name, true, op, bytes, pos);
    assert o.Done? && o.pos == pos + 2;
    ImmediateToRmText(mnemonic, ext, name, true, op, bytes, pos);
    assert RmOperand(name, bytes, pos + 1, f.0, f.2, true).value == "ax";
    assert SizePrefix(f.0, true) == "";
    assert mnemonic + " " + "ax" + ", " + "" + IntToString(Int8(bytes[pos + 1])) + "\n" ==
      mnemonic + " ax, " + IntToString(Int8(bytes[pos + 1])) + "\n";
  }

  const DecName := "DEC: register/memory"

  /** `decRegOrMem`: `[1111111|w] [mod|001|r/m] [disp]`, with the size keyword for memory. */
  method DecRegOrMem(op: Byte, d: Decoder) returns (text: string, err: Option<Error>)
    requires d.Valid()
    modifies d`pos
    ensures d.Valid()
    ensures Yields(Unary("dec", 1, DecName, op, d.bytes, old(d.pos)), text, err, d.pos)
  {
    var isWord := Bit0(op) == 1;
    var operand, ok := d.Next();
    if !ok {
      return "", Some(Missing(DecName, Operand));
    }
    var f := ParseOperand(operand);
    var mod, reg, rm := f.0, f.1, f.2;
    if reg != 1 {
      return "", Some(BadReg(DecName, 1));
    }
    var dest;
    dest, err := d.DecodeUnaryRegOrMem(DecName, mod, rm, isWord);
    if err.Some? {
      return "", err;
    }
    text := "dec ";
    if mod != RegisterMode {
      text := text + SizeKeyword(isWord) + " ";
    }
    assert text == "dec" + " " + SizePrefix(mod, isWord);
    text := text + dest + "\n";
  }

  /** `decReg`: `[01001|reg]`, always a word register. */
  function DecReg(op: Byte): string
  {
    WordRegisterForm("dec", op)
  }

  /** A DEC of a register names the register of opcode bits 0-2 and nothing else. */
  lemma DecRegIdentifiesTheRegister(a: Byte, b: Byte)
    ensures DecReg(a) == DecReg(b) <==> Low3(a) == Low3(b)
    ensures DecReg(a) == "dec " + WordRegisters[Low3(a)] + "\n"
  {
    WordRegisterFormInjective("dec", a, b);
  }

  /** INC and DEC r/m share the opcode `[1111111|w]`; the REG field tells them apart. */
  lemma IncDecDistinguishedByReg(op: Byte, bytes: seq<Byte>, pos: nat)
    requires pos <= |bytes|
    ensures !(Unary("inc", 0, "INC: register/memory", op, bytes, pos).Done? && Unary("dec", 1, DecName, op, bytes, pos).Done?)
  {
  }

  /** NEG, MUL, IMUL, DIV, IDIV: `[1111011|w] [mod|ext|r/m]`. */
  datatype MulDivOp = Neg | Mul | Imul | Div | Idiv
  {
    function Mnemonic(): string
    {
      match this
      case Neg => "neg"
      case Mul => "mul"
      case Imul => "imul"
      case Div => "div"
      case Idiv => "idiv"
    }

    function Extension(): Field3
    {
      match this
      case Neg => 3
      case Mul => 4
      case Imul => 5
      case Div => 6
      case Idiv => 7
    }

    function Name(): string
    {
      match this
      case Neg => "NEG: Change sign"
      case Mul => "MUL: Unsigned multiplication"
      case Imul => "IMUL: Signed multiplication"
      case Div => "DIV: Unsigned division"
      case Idiv => "IDIV: Signed division"
    }
  }

  /** The group member a REG field selects; 000-010 select none (TEST and NOT share the opcode). */
  function MulDivOf(reg: Field3): (m: Option<MulDivOp>)
    ensures m.Some? ==> m.value.Extension() == reg
    ensures m.None? <==> reg < 3
  {
    match reg
    case 3 => Some(Neg)
    case 4 => Some(Mul)
    case 5 => Some(Imul)
    case 6 => Some(Div)
    case 7 => Some(Idiv)
    case _ => None
  }

  /** Every member of the group is the one its own REG value selects. */
  lemma MulDivOfExtension(m: MulDivOp)
    ensures MulDivOf(m.Extension()) == Some(m)
  {
  }

  /** `mulOrDiv`: the unary form `mnemonic [size ]X`; the REG field must equal `regPattern`. */
  method MulOrDiv(mnemonic: string, regPattern: Field3, name: string, op: Byte, d: Decoder)
    returns (text: string, err: Option<Error>)
    requires d.Valid()
    modifies d`pos
    ensures d.Valid()
    ensures Yields(Unary(mnemonic, regPattern, name, op, d.bytes, old(d.pos)), text, err, d.pos)
  {
    var isWord := Bit0(op) == 1;
    var operand, ok := d.Next();
    if !ok {
      return "", Some(Missing(name, Operand));
    }
    var f := ParseOperand(operand);
    var mod, reg, rm := f.0, f.1, f.2;
    if reg != regPattern {
      return "", Some(BadReg(name, regPattern));
    }
    var dest;
    dest, err := d.DecodeUnaryRegOrMem(name, mod, rm, isWord);
    if err.Some? {
      return "", err;
    }
    text := mnemonic + " ";
    if mod != RegisterMode {
      text := text + SizeKeyword(isWord) + " ";
    }
    assert text == mnemonic + " " + SizePrefix(mod, isWord);
    text := text + dest + "\n";
  }

  /** `neg`, `mul`, `imul`, `div`, `idiv`: mulOrDiv with the member's mnemonic, REG value and name. */
  method MulDivInstruction(m: MulDivOp, op: Byte, d: Decoder) returns (text: string, err: Option<Error>)
    requires d.Valid()
    modifies d`pos
    ensures d.Valid()
    ensures Yields(Unary(m.Mnemonic(), m.Extension(), m.Name(), op, d.bytes, old(d.pos)), text, err, d.pos)
  {
    text, err := MulOrDiv(m.Mnemonic(), m.Extension(), m.Name(), op, d);
  }
}
