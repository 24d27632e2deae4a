// The data-transfer builders of part1/pkg/decoder/data-transfer.go. Its `moveImmediateToReg`,
// `moveMemoryToAccumulator` and `moveAccumulatorToMemory` are those of move.go, message for
// message, and are Move's members; the two MOV builders below go through the package helpers
// instead of the inline reads.

module DataTransfer {
  import opened Numeric
  import opened Outcomes
  import opened Engine
  import opened Forms
  import Move

  const PushName := "PUSH: register/memory"
  const PopName := "POP: register/memory"

  /** `moveImmediateToRegOrMem` over decodeUnaryRegOrMem and decodeImmediate: it reads what move.go's one reads. */
  method MoveImmediateToRegOrMem(op: Byte, d: Decoder) returns (text: string, err: Option<Error>)
    requires d.Valid()
    modifies d`pos
    ensures d.Valid()
    ensures Yields(Move.ImmediateToRegOrMem(op, d.bytes, old(d.pos)), text, err, d.pos)
  {
    var name := Move.ImmediateToRegOrMemName;
    var isWord := Bit0(op) == 1;
    var operand, ok := d.Next();
    if !ok {
      return "", Some(Missing(name, Operand));
    }
    var f := ParseOperand(operand);
    var mod, reg, rm := f.0, f.1, f.2;
    if reg != 0 {
      return "", Some(BadReg(name, 0));
    }
    var dest;
    dest, err := d.DecodeUnaryRegOrMem(name, mod, rm, isWord);
    if err.Some? {
      return "", err;
    }
    var imm;
    imm, err := d.DecodeImmediate(name, isWord);
    if err.Some? {
      return "", err;
    }
    text := "mov " + dest + ", ";
    if mod != RegisterMode {
      text := text + SizeKeyword(isWord) + " ";
    }
    assert text == "mov " + dest + ", " + SizePrefix(mod, isWord);
    var comment := "";
    if Int16(imm) < 0 {
      comment := " ; or " + Decimal.IntToString(Int16(imm));
    }
    assert comment == OrComment(imm);
    text := text + Decimal.NatToString(imm) + comment + "\n";
  }

  /** `moveRegMemToReg` over decodeBinaryRegOrMem. */
  method MoveRegMemToReg(op: Byte, d: Decoder) returns (text: string, err: Option<Error>)
    requires d.Valid()
    modifies d`pos
    ensures d.Valid()
    ensures Yields(RegMemWithReg("mov", Move.RegMemToRegName, op, d.bytes, old(d.pos)), text, err, d.pos)
  {
    var operand, ok := d.Next();
    if !ok {
      return "", Some(Missing(Move.RegMemToRegName, Operand));
    }
    var f := ParseOperand(operand);
    var dest, src;
    dest, src, err := d.DecodeBinaryRegOrMem(Move.RegMemToRegName, f.0, f.1, f.2, Bit0(op) == 1, Bit1(op));
    if err.Some? {
      return "", err;
    }
    assert RegOrMemPair(Move.RegMemToRegName, op, d.bytes, old(d.pos)).value == (dest, src);
    assert "mov" + " " == "mov ";
    text := "mov " + dest + ", " + src + "\n";
  }

  /** `pushRegOrMem`: `[11111111] [mod|110|r/m] [disp]`; the error for another REG quotes 000. */
  method PushRegOrMem(op: Byte, d: Decoder) returns (text: string, err: Option<Error>)
    requires d.Valid()
    modifies d`pos
    ensures d.Valid()
    ensures Yields(WordUnary("push", 6, 0, PushName, d.bytes, old(d.pos)), text, err, d.pos)
  {
    var operand, ok := d.Next();
    if !ok {
      return "", Some(Missing(PushName, Operand));
    }
    var f := ParseOperand(operand);
    if f.1 != 6 {
      return "", Some(BadReg(PushName, 0));
    }
    var source;
    source, err := d.DecodeUnaryRegOrMem(PushName, f.0, f.2, true);
    if err.Some? {
      return "", err;
    }
    assert "push" + " word " == "push word ";
    text := "push word " + source + "\n";
  }

  /** `popRegOrMem`: `[10001111] [mod|000|r/m] [disp]`. */
  method PopRegOrMem(op: Byte, d: Decoder) returns (text: string, err: Option<Error>)
    requires d.Valid()
    modifies d`pos
    ensures d.Valid()
    ensures Yields(WordUnary("pop", 0, 0, PopName, d.bytes, old(d.pos)), text, err, d.pos)
  {
    var operand, ok := d.Next();
    if !ok {
      return "", Some(Missing(PopName, Operand));
    }
    var f := ParseOperand(operand);
    if f.1 != 0 {
      return "", Some(BadReg(PopName, 0));
    }
    var dest;
    dest, err := d.DecodeUnaryRegOrMem(PopName, f.0, f.2, true);
    if err.Some? {
      return "", err;
    }
    assert "pop" + " word " == "pop word ";
    text := "pop word " + dest + "\n";
  }

  /** `pushReg`: `[01010|reg]`. */
  function PushReg(op: Byte): string
  {
    WordRegisterForm("push", op)
  }

  /** `popReg`: `[01011|reg]`. */
  function PopReg(op: Byte): string
  {
    WordRegisterForm("pop", op)
  }

  /** `pushSegmentReg`: `[000|reg|110]`. */
  function PushSegmentReg(op: Byte): string
  {
    SegmentForm("push", op)
  }

  /** `popSegmentReg`: `[000|reg|111]`. */
  function PopSegmentReg(op: Byte): string
  {
    SegmentForm("pop", op)
  }

  /**
   * The register forms name the register of opcode bits 0-2 and nothing else, so two opcodes
   * print the same PUSH (or POP) exactly when those bits agree; a PUSH never prints as a POP.
   */
  lemma RegisterFormsIdentifyTheRegister(a: Byte, b: Byte)
    ensures PushReg(a) == PushReg(b) <==> Low3(a) == Low3(b)
    ensures PopReg(a) == PopReg(b) <==> Low3(a) == Low3(b)
    ensures PushReg(a) != PopReg(b)
    ensures PushReg(a) == "push " + WordRegisters[Low3(a)] + "\n"
  {
    WordRegisterFormInjective("push", a, b);
    WordRegisterFormInjective("pop", a, b);
    assert PushReg(a)[1] != PopReg(b)[1];
  }

  /**
   * The segment forms name the segment register of opcode bits 3-5: for 0-3 two opcodes print the
   * same PUSH (or POP) exactly when those bits agree; for 4-7 no register is printed.
   */
  lemma SegmentFormsIdentifyTheRegister(a: Byte, b: Byte)
    ensures Middle3(a) < 4 && Middle3(b) < 4 ==>
      (PushSegmentReg(a) == PushSegmentReg(b) <==> Middle3(a) == Middle3(b)) &&
      (PopSegmentReg(a) == PopSegmentReg(b) <==> Middle3(a) == Middle3(b))
    ensures Middle3(a) >= 4 ==> PushSegmentReg(a) == "push \n" && PopSegmentReg(a) == "pop \n"
    ensures PushSegmentReg(a) != PopSegmentReg(b)
  {
    SegmentFormInjective("push", a, b);
    SegmentFormInjective("pop", a, b);
    assert PushSegmentReg(a)[1] != PopSegmentReg(b)[1];
  }
}
