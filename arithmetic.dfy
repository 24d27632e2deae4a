// The arithmetic builders of part1/pkg/decoder/arithmetic.go: the ASCII/decimal adjusts, the
// reg/mem, immediate and accumulator forms of ADD, ADC, SUB and CMP, and INC. This snapshot
// has no SBB, so the builders take any operation of the family but SBB.

module Arithmetic {
  import opened Numeric
  import opened Decimal
  import opened Outcomes
  import opened Engine
  import opened Forms

  /** The one-byte adjusts `aaa` `[00110111]` and `daa` `[00100111]`. */
  datatype Adjust = Aaa | Daa
  {
    function Opcode(): Byte
    {
      match this
      case Aaa => 0x37
      case Daa => 0x27
    }

    function Text(): string
    {
      match this
      case Aaa => "aaa\n"
      case Daa => "daa\n"
    }
  }

  /** The adjust an opcode encodes, if any. */
  function AdjustOf(op: Byte): (a: Option<Adjust>)
    ensures a.Some? ==> a.value.Opcode() == op
  {
    if op == 0x37 then Some(Aaa) else if op == 0x27 then Some(Daa) else None
  }

  /** Each adjust is recovered from its opcode, and the two print differently. */
  lemma AdjustRoundTrip(a: Adjust, b: Adjust)
    ensures AdjustOf(a.Opcode()) == Some(a)
    ensures a.Text() == b.Text() <==> a == b
  {
    if a != b {
      assert a.Text()[0] != b.Text()[0];
    }
  }

  /**
   * `addRegOrMemToReg`, `adcRegOrMemToReg`, `subRegOrMemFromReg`, `cmpRegOrMemWithReg`:
   * `[xxxxxx|d|w] [mod|reg|r/m] [disp]` through decodeBinaryRegOrMem.
   */
  method RegOrMemAndReg(alu: AluOp, op: Byte, d: Decoder) returns (text: string, err: Option<Error>)
    requires alu != Sbb
    requires d.Valid()
    modifies d`pos
    ensures d.Valid()
    ensures Yields(RegMemWithReg(alu.Mnemonic(), alu.RegMemName(), op, d.bytes, old(d.pos)), text, err, d.pos)
  {
    var name := alu.RegMemName();
    var isWord := Bit0(op) == 1;
    var dir := Bit1(op);
    var operand, ok := d.Next();
    if !ok {
      return "", Some(Missing(name, Operand));
    }
    var f := ParseOperand(operand);
    var dest, src;
    dest, src, err := d.DecodeBinaryRegOrMem(name, f.0, f.1, f.2, isWord, dir);
    if err.Some? {
      return "", err;
    }
    assert RegOrMemPair(name, op, d.bytes, old(d.pos)).value == (dest, src);
    text := alu.Mnemonic() + " " + dest + ", " + src + "\n";
  }

  /**
   * `addImmediateToRegOrMem` and its ADC/SUB/CMP twins: `[100000|s|w] [mod|ext|r/m] [disp]
   * [data] [data if s|w = 0|1]`, the REG field being the operation's extension.
   */
  method ImmediateAndRegOrMem(alu: AluOp, op: Byte, d: Decoder) returns (text: string, err: Option<Error>)
    requires alu != Sbb
    requires d.Valid()
    modifies d`pos
    ensures d.Valid()
    ensures Yields(ImmediateToRm(alu.Mnemonic(), alu.Extension(), alu.ImmediateName(), true, op, d.bytes, old(d.pos)),
                   text, err, d.pos)
  {
    text, err := BuildImmediateWithRegOrMemArithmeticInstruction(alu.Mnemonic(), alu.Extension(), alu.ImmediateName(), op, d);
  }

  /** `addImmediateToAccumulator` and its ADC/SUB/CMP twins: `[xxxxxx1|w] [data] [data if w = 1]`. */
  method ImmediateAndAccumulator(alu: AluOp, op: Byte, d: Decoder) returns (text: string, err: Option<Error>)
    requires alu != Sbb
    requires d.Valid()
    modifies d`pos
    ensures d.Valid()
    ensures Yields(AccumulatorWithImmediate(alu.Mnemonic(), alu.AccumulatorName(), op, d.bytes, old(d.pos)),
                   text, err, d.pos)
  {
    var isWord := Bit0(op) == 1;
    var imm;
    imm, err := d.DecodeImmediate(alu.AccumulatorName(), isWord);
    if err.Some? {
      return "", err;
    }
    var regName := if isWord then "ax" else "al";
    text := alu.Mnemonic() + " " + regName + ", " + NatToString(imm) + "\n";
  }

  const IncName := "INC: register/memory"

  /** `incRegOrMem`: `[1111111|w] [mod|000|r/m] [disp]`, with the size keyword for memory. */
  method IncRegOrMem(op: Byte, d: Decoder) returns (text: string, err: Option<Error>)
    requires d.Valid()
    modifies d`pos
    ensures d.Valid()
    ensures Yields(Unary("inc", 0, IncName, op, d.bytes, old(d.pos)), text, err, d.pos)
  {
    var isWord := Bit0(op) == 1;
    var operand, ok := d.Next();
    if !ok {
      return "", Some(Missing(IncName, Operand));
    }
    var f := ParseOperand(operand);
    var mod, reg, rm := f.0, f.1, f.2;
    if reg != 0 {
      return "", Some(BadReg(IncName, 0));
    }
    var dest;
    dest, err := d.DecodeUnaryRegOrMem(IncName, mod, rm, isWord);
    if err.Some? {
      return "", err;
    }
    text := "inc ";
    if mod != RegisterMode {
      text := text + SizeKeyword(isWord) + " ";
    }
    assert text == "inc" + " " + SizePrefix(mod, isWord);
    text := text + dest + "\n";
  }

  /** `incReg`: `[01000|reg]`, always a word register. */
  function IncReg(op: Byte): string
  {
    WordRegisterForm("inc", op)
  }

  /** An INC of a register names the register of opcode bits 0-2 and nothing else. */
  lemma IncRegIdentifiesTheRegister(a: Byte, b: Byte)
    ensures IncReg(a) == IncReg(b) <==> Low3(a) == Low3(b)
    ensures IncReg(a) == "inc " + WordRegisters[Low3(a)] + "\n"
  {
    WordRegisterFormInjective("inc", a, b);
  }
}
