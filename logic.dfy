// The logic builders of part1/pkg/decoder/logic.go: NOT, the shifts and rotates through
// `bitShift`, and the reg/mem, immediate and accumulator forms of AND, TEST, OR and XOR through
// the package helpers.

module Logic {
  import opened Numeric
  import opened Decimal
  import opened Outcomes
  import opened Engine
  import opened Forms

  const NotName := "NOT: Invert"

  /** `not`: `[1111011|w] [mod|010|r/m] [disp]`, with the size keyword for memory. */
  method Not(op: Byte, d: Decoder) returns (text: string, err: Option<Error>)
    requires d.Valid()
    modifies d`pos
    ensures d.Valid()
    ensures Yields(Unary("not", 2, NotName, op, d.bytes, old(d.pos)), text, err, d.pos)
  {
    var isWord := Bit0(op) == 1;
    var operand, ok := d.Next();
    if !ok {
      return "", Some(Missing(NotName, Operand));
    }
    var f := ParseOperand(operand);
    var mod, reg, rm := f.0, f.1, f.2;
    if reg != 2 {
      return "", Some(BadReg(NotName, 2));
    }
    var dest;
    dest, err := d.DecodeUnaryRegOrMem(NotName, mod, rm, isWord);
    if err.Some? {
      return "", err;
    }
    text := "not ";
    if mod != RegisterMode {
      text := text + SizeKeyword(isWord) + " ";
    }
    assert text == "not" + " " + SizePrefix(mod, isWord);
    text := text + dest + "\n";
  }

  /** The shifts and rotates `[110100|v|w] [mod|ext|r/m]`, told apart by the REG field. */
  datatype ShiftOp = Shl | Shr | Sar | Rol | Ror | Rcl | Rcr
  {
    function Mnemonic(): string
    {
      match this
      case Shl => "shl"
      case Shr => "shr"
      case Sar => "sar"
      case Rol => "rol"
      case Ror => "ror"
      case Rcl => "rcl"
      case Rcr => "rcr"
    }

    function Extension(): Field3
    {
      match this
      case Shl => 4
      case Shr => 5
      case Sar => 7
      case Rol => 0
      case Ror => 1
      case Rcl => 2
      case Rcr => 3
    }

    function Name(): string
    {
      match this
      case Shl => "SHL/SAL: Shift logical/arithmetic left"
      case Shr => "SHR: Shift logical right"
      case Sar => "SAR: Shift arithmetic right"
      case Rol => "ROL: Rotate left"
      case Ror => "ROR: Rotate right"
      case Rcl => "RCL: Rotate through carry flag left"
      case Rcr => "RCR: Rotate through carry flag right"
    }
  }

  /** The shift a REG field selects; 110 selects none. */
  function ShiftOf(reg: Field3): (s: Option<ShiftOp>)
    ensures s.Some? ==> s.value.Extension() == reg
    ensures s.None? <==> reg == 6
  {
    match reg
    case 0 => Some(Rol)
    case 1 => Some(Ror)
    case 2 => Some(Rcl)
    case 3 => Some(Rcr)
    case 4 => Some(Shl)
    case 5 => Some(Shr)
    case 7 => Some(Sar)
    case _ => None
  }

  /** Every shift is the one its own REG value selects, so the REG field identifies it. */
  lemma ShiftOfExtension(s: ShiftOp)
    ensures ShiftOf(s.Extension()) == Some(s)
  {
  }

  /** The count operand: `cl` when V (opcode bit 1) is CountByCL = 1, the constant 1 otherwise. */
  function ShiftCount(op: Byte): (count: string)
    ensures count == "cl" <==> Bit1(op) == 1
    ensures count != "cl" ==> count == "1"
  {
    if Bit1(op) == 1 then "cl" else "1"
  }

  /**
   * `bitShift`: `mnemonic [size ]X, count`; the REG field must equal `ext`. No byte is read beyond
   * the operand and its displacement.
   */
  function Shift(mnemonic: string, ext: Field3, name: string, op: Byte, bytes: seq<Byte>, pos: nat): (o: Outcome<string>)
    requires pos <= |bytes|
    ensures pos == |bytes| ==> o == Fail(Missing(name, Operand), pos)
    ensures pos < |bytes| && ParseOperand(bytes[pos]).1 != ext ==> o == Fail(BadReg(name, ext), pos + 1)
    ensures o.Done? <==>
      pos < |bytes| && ParseOperand(bytes[pos]).1 == ext && pos + ModRmLength(bytes[pos]) <= |bytes|
    ensures o.Done? ==> o.pos == pos + ModRmLength(bytes[pos])
    ensures o.Done? ==>
      var f := ParseOperand(bytes[pos]);
      o.value == mnemonic + " " + SizePrefix(f.0, Bit0(op) == 1) +
        RmOperand(name, bytes, pos + 1, f.0, f.2, Bit0(op) == 1).value + ", " + ShiftCount(op) + "\n"
  {
    if pos == |bytes| then
      Fail(Missing(name, Operand), pos)
    else
      var f := ParseOperand(bytes[pos]);
      var isWord := Bit0(op) == 1;
      if f.1 != ext then
        Fail(BadReg(name, ext), pos + 1)
      else
        match RmOperand(name, bytes, pos + 1, f.0, f.2, isWord)
        case Fail(e, p) => Fail(e, p)
        case Done(dest, p) => Done(mnemonic + " " + SizePrefix(f.0, isWord) + dest + ", " + ShiftCount(op) + "\n", p)
  }

  /**
   * A shift reads exactly what a unary instruction with the same REG value reads and fails where
   * it fails; its text is the unary text with the count before the newline.
   */
  lemma ShiftIsUnaryWithCount(mnemonic: string, ext: Field3, name: string, op: Byte, bytes: seq<Byte>, pos: nat)
    requires pos <= |bytes|
    ensures var s := Shift(mnemonic, ext, name, op, bytes, pos);
      var u := Unary(mnemonic, ext, name, op, bytes, pos);
      s.pos == u.pos && (s.Fail? <==> u.Fail?) && (s.Fail? ==> s.error == u.error) &&
      (s.Done? ==> s.value == u.value[..|u.value| - 1] + ", " + ShiftCount(op) + "\n")
  {
    var s := Shift(mnemonic, ext, name, op, bytes, pos);
    var u := Unary(mnemonic, ext, name, op, bytes, pos);
    if s.Done? {
      var f := ParseOperand(bytes[pos]);
      var body := mnemonic + " " + SizePrefix(f.0, Bit0(op) == 1) +
        RmOperand(name, bytes, pos + 1, f.0, f.2, Bit0(op) == 1).value;
      assert u.value == body + "\n";
      assert u.value[..|u.value| - 1] == body;
    }
  }

  /** `bitShift`. */
  method BitShift(mnemonic: string, regPattern: Field3, name: string, op: Byte, d: Decoder)
    returns (text: string, err: Option<Error>)
    requires d.Valid()
    modifies d`pos
    ensures d.Valid()
    ensures Yields(Shift(mnemonic, regPattern, name, op, d.bytes, old(d.pos)), text, err, d.pos)
  {
    var isWord := Bit0(op) == 1;
    var count := Bit1(op);
    var operand, ok := d.Next();
    if !ok {
      return "", Some(Missing(name, Operand));
    }
    var f := ParseOperand(operand);
    var mod, reg, rm := f.0, f.1, f.2;
    if reg != regPattern {
      return "", Some(BadReg(name, regPattern));
    }
    var dest;
    dest, err := d.DecodeUnaryRegOrMem(name, mod, rm, isWord);
    if err.Some? {
      return "", err;
    }
    var displayCount := if count == 1 then "cl" else "1";
    text := mnemonic + " ";
    if mod != RegisterMode {
      text := text + SizeKeyword(isWord) + " ";
    }
    assert text == mnemonic + " " + SizePrefix(mod, isWord);
    text := text + dest + ", " + displayCount + "\n";
  }

  /** `shl`, `shr`, `sar`, `rol`, `ror`, `rcl`, `rcr`: bitShift with the operation's mnemonic, REG value and name. */
  method ShiftInstruction(s: ShiftOp, op: Byte, d: Decoder) returns (text: string, err: Option<Error>)
    requires d.Valid()
    modifies d`pos
    ensures d.Valid()
    ensures Yields(Shift(s.Mnemonic(), s.Extension(), s.Name(), op, d.bytes, old(d.pos)), text, err, d.pos)
  {
    text, err := BitShift(s.Mnemonic(), s.Extension(), s.Name(), op, d);
  }

  /** AND, TEST, OR and XOR: each has a reg/mem, an immediate and an accumulator form. */
  datatype LogicOp = And | Test | Or | Xor
  {
    function Mnemonic(): string
    {
      match this
      case And => "and"
      case Test => "test"
      case Or => "or"
      case Xor => "xor"
    }

    /** The REG value of the immediate form. */
    function Extension(): Field3
    {
      match this
      case And => 4
      case Test => 0
      case Or => 1
      case Xor => 6
    }

    function RegMemName(): string
    {
      match this
      case And => "AND: Reg/memory with register to either"
      case Test => "TEST: Reg/memory with register to either"
      case Or => "OR: Reg/memory with register to either"
      case Xor => "XOR: Reg/memory with register to either"
    }

    function ImmediateName(): string
    {
      match this
      case And => "AND: Immediate with register/memory"
      case Test => "TEST: Immediate with register/memory"
      case Or => "OR: Immediate with register/memory"
      case Xor => "XOR: Immediate with register/memory"
    }

    function AccumulatorName(): string
    {
      match this
      case And => "AND: immediate with accumulator"
      case Test => "TEST: immediate with accumulator"
      case Or => "OR: immediate with accumulator"
      case Xor => "XOR: immediate with accumulator"
    }
  }

  /** `andRegOrMemWithReg`, `testRegOrMemWithReg`, `orRegOrMemWithReg`, `xorRegOrMemWithReg`. */
  method LogicRegOrMemWithReg(l: LogicOp, op: Byte, d: Decoder) returns (text: string, err: Option<Error>)
    requires d.Valid()
    modifies d`pos
    ensures d.Valid()
    ensures Yields(RegMemWithReg(l.Mnemonic(), l.RegMemName(), op, d.bytes, old(d.pos)), text, err, d.pos)
  {
    var dest, src;
    dest, src, err := RegOrMemWithReg(d, l.RegMemName(), op);
    if err.Some? {
      return "", err;
    }
    text := l.Mnemonic() + " " + dest + ", " + src + "\n";
  }

  /** `andImmediateWithRegOrMem` and its TEST/OR/XOR twins: buildImmediateWithRegOrMemInstruction. */
  method LogicImmediateWithRegOrMem(l: LogicOp, op: Byte, d: Decoder) returns (text: string, err: Option<Error>)
    requires d.Valid()
    modifies d`pos
    ensures d.Valid()
    ensures Yields(ImmediateToRm(l.Mnemonic(), l.Extension(), l.ImmediateName(), false, op, d.bytes, old(d.pos)),
                   text, err, d.pos)
  {
    text, err := BuildImmediateWithRegOrMemInstruction(d, l.Mnemonic(), l.Extension(), l.ImmediateName(), op);
  }

  /** `andImmediateWithAccumulator` and its TEST/OR/XOR twins: immediateWithAccumulator. */
  method LogicImmediateWithAccumulator(l: LogicOp, op: Byte, d: Decoder) returns (text: string, err: Option<Error>)
    requires d.Valid()
    modifies d`pos
    ensures d.Valid()
    ensures Yields(AccumulatorWithImmediate(l.Mnemonic(), l.AccumulatorName(), op, d.bytes, old(d.pos)),
                   text, err, d.pos)
  {
    var regName, value;
    regName, value, err := ImmediateWithAccumulator(d, l.AccumulatorName(), op);
    if err.Some? {
      return "", err;
    }
    text := l.Mnemonic() + " " + regName + ", " + NatToString(value) + "\n";
  }

  /** The immediate forms of AND, TEST, OR and XOR carry distinct REG values. */
  lemma LogicExtensionsDistinct(a: LogicOp, b: LogicOp)
    ensures a.Extension() == b.Extension() <==> a == b
  {
  }
}
