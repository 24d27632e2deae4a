// The instruction shapes the builders share, as specification functions over the byte
// buffer and the cursor, and the cursor helpers that the later snapshots call by name
// (`regOrMemWithReg`, `immediateWithAccumulator`, `buildImmediateWithRegOrMemInstruction`).

module Forms {
  import opened Numeric
  import opened Decimal
  import opened Outcomes
  import opened Engine

  /** The size keyword that names the width of a memory operand. */
  function SizeKeyword(isWord: bool): string
  {
    if isWord then "word" else "byte"
  }

  /** The size keyword and a space for a memory operand (MOD != 11); nothing for a register. */
  function SizePrefix(mod: Field2, isWord: bool): (s: string)
    ensures s == "" <==> mod == RegisterMode
    ensures s != "" ==> s == SizeKeyword(isWord) + " "
  {
    if mod != RegisterMode then SizeKeyword(isWord) + " " else ""
  }

  /** The accumulator under the W bit. */
  function Accumulator(isWord: bool): (name: string)
    ensures name == RegisterName(0, isWord)
  {
    if isWord then "ax" else "al"
  }

  /** ` ; or <int16>` after an immediate whose int16 reading is negative; nothing otherwise. */
  function OrComment(value: Word): (s: string)
    ensures s != "" <==> value >= 0x8000
    ensures s != "" ==> s == " ; or " + IntToString(value - 0x10000)
  {
    if Int16(value) < 0 then " ; or " + IntToString(Int16(value)) else ""
  }

  /** The bytes `[mod|reg|r/m]` and its displacement occupy. */
  function ModRmLength(operand: Byte): nat
  {
    var f := ParseOperand(operand);
    1 + DisplacementLength(f.0, f.2)
  }

  /** Proof step for the text lemmas: a prefix of a text within its first part is a prefix of that part. */
  lemma TakeOfAppend(a: string, b: string, n: nat)
    requires n <= |a|
    ensures (a + b)[..n] == a[..n]
  {
    assert forall i :: 0 <= i < n ==> (a + b)[..n][i] == a[..n][i];
  }

  /** Equal texts that share a prefix and a suffix have equal middles. */
  lemma CancelFrame(prefix: string, a: string, b: string, suffix: string)
    requires prefix + a + suffix == prefix + b + suffix
    ensures a == b
  {
    var s := prefix + a + suffix;
    assert |a| == |b|;
    assert a == s[|prefix|..|prefix| + |a|];
    assert b == (prefix + b + suffix)[|prefix|..|prefix| + |b|];
  }

  /** `mnemonic R` for the word register in opcode bits 0-2 (`[xxxxx|reg]`); no byte follows the opcode. */
  function WordRegisterForm(mnemonic: string, op: Byte): string
  {
    mnemonic + " " + RegisterName(Low3(op), true) + "\n"
  }

  /** Two opcodes print the same register form exactly when their bits 0-2 agree. */
  lemma WordRegisterFormInjective(mnemonic: string, a: Byte, b: Byte)
    ensures WordRegisterForm(mnemonic, a) == WordRegisterForm(mnemonic, b) <==> Low3(a) == Low3(b)
  {
    if WordRegisterForm(mnemonic, a) == WordRegisterForm(mnemonic, b) {
      CancelFrame(mnemonic + " ", RegisterName(Low3(a), true), RegisterName(Low3(b), true), "\n");
      RegisterNameInjective(Low3(a), true, Low3(b), true);
    }
  }

  /**
   * `SegmentRegisterFieldEncoding`: the segment register of a two-bit SR field. The table is
   * keyed 0-3; a Go map yields the empty string for any other key.
   */
  function SegmentName(sr: Field3): (name: string)
    ensures name == "" <==> sr >= 4
  {
    if sr == 0 then "es" else if sr == 1 then "cs" else if sr == 2 then "ss" else if sr == 3 then "ds" else ""
  }

  /** `mnemonic SR` for the segment register in opcode bits 3-5 (`[000|reg|11x]`); no byte follows. */
  function SegmentForm(mnemonic: string, op: Byte): string
  {
    mnemonic + " " + SegmentName(Middle3(op)) + "\n"
  }

  /**
   * Opcodes whose bits 3-5 are 0-3 print the same segment form exactly when those bits agree;
   * bits 3-5 of 4-7 print no register at all.
   */
  lemma SegmentFormInjective(mnemonic: string, a: Byte, b: Byte)
    ensures Middle3(a) < 4 && Middle3(b) < 4 ==>
      (SegmentForm(mnemonic, a) == SegmentForm(mnemonic, b) <==> Middle3(a) == Middle3(b))
    ensures Middle3(a) >= 4 ==> SegmentForm(mnemonic, a) == mnemonic + " \n"
  {
    if SegmentForm(mnemonic, a) == SegmentForm(mnemonic, b) {
      CancelFrame(mnemonic + " ", SegmentName(Middle3(a)), SegmentName(Middle3(b)), "\n");
    }
  }

  /**
   * PUSH/POP `[opcode] [mod|ext|r/m] [disp]`: always a word, rendered `mnemonic word X` whether X
   * is memory or a register. The REG field must equal `ext`; the error quotes `stated`.
   */
  function WordUnary(mnemonic: string, ext: Field3, stated: nat, name: string, bytes: seq<Byte>, pos: nat): (o: Outcome<string>)
    requires pos <= |bytes|
    ensures pos == |bytes| ==> o == Fail(Missing(name, Operand), pos)
    ensures pos < |bytes| && ParseOperand(bytes[pos]).1 != ext ==> o == Fail(BadReg(name, stated), pos + 1)
    ensures o.Done? <==>
      pos < |bytes| && ParseOperand(bytes[pos]).1 == ext && pos + ModRmLength(bytes[pos]) <= |bytes|
    ensures o.Done? ==> o.pos == pos + ModRmLength(bytes[pos])
    ensures o.Done? ==>
      var f := ParseOperand(bytes[pos]);
      o.value == mnemonic + " word " + RmOperand(name, bytes, pos + 1, f.0, f.2, true).value + "\n"
    ensures o.Fail? ==> o.pos <= |bytes|
  {
    if pos == |bytes| then
      Fail(Missing(name, Operand), pos)
    else
      var f := ParseOperand(bytes[pos]);
      if f.1 != ext then
        Fail(BadReg(name, stated), pos + 1)
      else
        match RmOperand(name, bytes, pos + 1, f.0, f.2, true)
        case Fail(e, p) => Fail(e, p)
        case Done(operand, p) => Done(mnemonic + " word " + operand + "\n", p)
  }

  /** The ADD/ADC/SUB/SBB/CMP family: each has a reg/mem, an immediate and an accumulator form. */
  datatype AluOp = Add | Adc | Sub | Sbb | Cmp
  {
    function Mnemonic(): string
    {
      match this
      case Add => "add"
      case Adc => "adc"
      case Sub => "sub"
      case Sbb => "sbb"
      case Cmp => "cmp"
    }

    /** The REG value `[100000|s|w] [mod|reg|r/m]` carries for this operation. */
    function Extension(): Field3
    {
      match this
      case Add => 0
      case Adc => 2
      case Sub => 5
      case Sbb => 3
      case Cmp => 7
    }

    function RegMemName(): string
    {
      match this
      case Add => "ADD: Reg/memory with register to either"
      case Adc => "ADC: Reg/memory with register to either"
      case Sub => "SUB: Reg/memory and register to either"
      case Sbb => "SBB: Reg/memory and register to either"
      case Cmp => "CMP: Reg/memory and register"
    }

    function ImmediateName(): string
    {
      match this
      case Add => "ADD: immediate to register/memory"
      case Adc => "ADC: immediate to register/memory"
      case Sub => "SUB: immediate from register/memory"
      case Sbb => "SBB: immediate from register/memory"
      case Cmp => "CMP: immediate with register/memory"
    }

    function AccumulatorName(): string
    {
      match this
      case Add => "ADD: immediate to accumulator"
      case Adc => "ADC: immediate to accumulator"
      case Sub => "SUB: immediate from accumulator"
      case Sbb => "SBB: immediate from accumulator"
      case Cmp => "CMP: immediate with accumulator"
    }
  }

  /** Each operation of the family has its own extension, so the REG field identifies it. */
  lemma AluExtensionsDistinct(a: AluOp, b: AluOp)
    requires a.Extension() == b.Extension()
    ensures a == b
  {
  }

  /**
   * `regOrMemWithReg`: W is opcode bit 0 and D is opcode bit 1; one `[mod|reg|r/m]` byte is read
   * and then the operand pair of decodeRegOrMem.
   */
  function RegOrMemPair(name: string, op: Byte, bytes: seq<Byte>, pos: nat): (o: Outcome<(string, string)>)
    requires pos <= |bytes|
    ensures pos == |bytes| ==> o == Fail(Missing(name, Operand), pos)
    ensures pos < |bytes| ==> (o.Done? <==> pos + ModRmLength(bytes[pos]) <= |bytes|)
    ensures o.Done? ==> o.pos == pos + ModRmLength(bytes[pos])
    ensures o.Fail? ==> o.pos == |bytes| && o.error.Missing? && o.error.instruction == name
    ensures pos < |bytes| ==> var f := ParseOperand(bytes[pos]);
      o == RegOrMem(name, bytes, pos + 1, f.0, f.1, f.2, Bit0(op) == 1, Bit1(op))
  {
    if pos == |bytes| then
      Fail(Missing(name, Operand), pos)
    else
      var f := ParseOperand(bytes[pos]);
      RegOrMem(name, bytes, pos + 1, f.0, f.1, f.2, Bit0(op) == 1, Bit1(op))
  }

  /** `[xxxxxx|d|w] [mod|reg|r/m] [disp]` rendered `mnemonic dest, src`. */
  function RegMemWithReg(mnemonic: string, name: string, op: Byte, bytes: seq<Byte>, pos: nat): (o: Outcome<string>)
    requires pos <= |bytes|
    ensures var p := RegOrMemPair(name, op, bytes, pos);
      o.pos == p.pos && (o.Fail? <==> p.Fail?) && (o.Fail? ==> o.error == p.error) &&
      (o.Done? ==> o.value == mnemonic + " " + p.value.0 + ", " + p.value.1 + "\n")
  {
    match RegOrMemPair(name, op, bytes, pos)
    case Fail(e, p) => Fail(e, p)
    case Done(pair, p) => Done(mnemonic + " " + pair.0 + ", " + pair.1 + "\n", p)
  }

  /**
   * `[opcode|s|w] [mod|ext|r/m] [disp] [data] [data if s|w = 0|1]` rendered
   * `mnemonic dest, [size ]value`. The REG field must equal `ext`. When the opcode honours the
   * S bit and S=1 only one immediate byte follows and it prints as an int8; otherwise W
   * chooses one or two bytes, printed unsigned.
   */
  function ImmediateToRm(mnemonic: string, ext: Field3, name: string, honoursSign: bool, op: Byte,
                         bytes: seq<Byte>, pos: nat): (o: Outcome<string>)
    requires pos <= |bytes|
    ensures pos == |bytes| ==> o == Fail(Missing(name, Operand), pos)
    ensures pos < |bytes| && ParseOperand(bytes[pos]).1 != ext ==> o == Fail(BadReg(name, ext), pos + 1)
    ensures o.Done? <==>
      pos < |bytes| && ParseOperand(bytes[pos]).1 == ext &&
      pos + ModRmLength(bytes[pos]) + Width(Bit0(op) == 1 && !(honoursSign && Bit1(op) == 1)) <= |bytes|
    ensures o.Done? ==>
      o.pos == pos + ModRmLength(bytes[pos]) + Width(Bit0(op) == 1 && !(honoursSign && Bit1(op) == 1))
  {
    if pos == |bytes| then
      Fail(Missing(name, Operand), pos)
    else
      var f := ParseOperand(bytes[pos]);
      var isWord := Bit0(op) == 1;
      var isSigned := honoursSign && Bit1(op) == 1;
      if f.1 != ext then
        Fail(BadReg(name, ext), pos + 1)
      else
        match RmOperand(name, bytes, pos + 1, f.0, f.2, isWord)
        case Fail(e, p) => Fail(e, p)
        case Done(dest, p) =>
          match ReadImmediate(name, bytes, p, isWord && !isSigned)
          case Fail(e, q) => Fail(e, q)
          case Done(imm, q) =>
            var value := if isSigned then IntToString(Int8(imm % 256)) else NatToString(imm);
            Done(mnemonic + " " + dest + ", " + SizePrefix(f.0, isWord) + value + "\n", q)
  }

  /**
   * What ImmediateToRm prints: the R/M operand, the size keyword for memory, and the immediate
   * read after the displacement, as an int8 when S applies and unsigned otherwise.
   */
  lemma ImmediateToRmText(mnemonic: string, ext: Field3, name: string, honoursSign: bool, op: Byte,
                          bytes: seq<Byte>, pos: nat)
    requires pos <= |bytes|
    requires ImmediateToRm(mnemonic, ext, name, honoursSign, op, bytes, pos).Done?
    ensures honoursSign && Bit1(op) == 1 ==>
      var f := ParseOperand(bytes[pos]);
      var at := pos + ModRmLength(bytes[pos]);
      ImmediateToRm(mnemonic, ext, name, honoursSign, op, bytes, pos).value ==
        mnemonic + " " + RmOperand(name, bytes, pos + 1, f.0, f.2, Bit0(op) == 1).value + ", " +
        SizePrefix(f.0, Bit0(op) == 1) + IntToString(Int8(bytes[at])) + "\n"
    ensures !(honoursSign && Bit1(op) == 1) && Bit0(op) == 1 ==>
      var f := ParseOperand(bytes[pos]);
      var at := pos + ModRmLength(bytes[pos]);
      ImmediateToRm(mnemonic, ext, name, honoursSign, op, bytes, pos).value ==
        mnemonic + " " + RmOperand(name, bytes, pos + 1, f.0, f.2, true).value + ", " +
        SizePrefix(f.0, true) + NatToString(bytes[at] as int + 256 * bytes[at + 1] as int) + "\n"
    ensures !(honoursSign && Bit1(op) == 1) && Bit0(op) == 0 ==>
      var f := ParseOperand(bytes[pos]);
      var at := pos + ModRmLength(bytes[pos]);
      ImmediateToRm(mnemonic, ext, name, honoursSign, op, bytes, pos).value ==
        mnemonic + " " + RmOperand(name, bytes, pos + 1, f.0, f.2, false).value + ", " +
        SizePrefix(f.0, false) + NatToString(bytes[at]) + "\n"
  {
    if honoursSign && Bit1(op) == 1 {
      ImmediateToRmSignedText(mnemonic, ext, name, honoursSign, op, bytes, pos);
    } else {
      ImmediateToRmUnsignedText(mnemonic, ext, name, honoursSign, op, bytes, pos);
    }
  }

  /** ImmediateToRmText without S: W chooses one or two immediate bytes, printed unsigned. */
  lemma ImmediateToRmUnsignedText(mnemonic: string, ext: Field3, name: string, honoursSign: bool, op: Byte,
                                  bytes: seq<Byte>, pos: nat)
    requires pos <= |bytes| && !(honoursSign && Bit1(op) == 1)
    requires ImmediateToRm(mnemonic, ext, name, honoursSign, op, bytes, pos).Done?
    ensures
      var f := ParseOperand(bytes[pos]);
      var isWord := Bit0(op) == 1;
      ImmediateToRm(mnemonic, ext, name, honoursSign, op, bytes, pos).value ==
        mnemonic + " " + RmOperand(name, bytes, pos + 1, f.0, f.2, isWord).value + ", " +
        SizePrefix(f.0, isWord) + NatToString(ReadImmediate(name, bytes, pos + ModRmLength(bytes[pos]), isWord).value) + "\n"
  {
    var f := ParseOperand(bytes[pos]);
    var r := RmOperand(name, bytes, pos + 1, f.0, f.2, Bit0(op) == 1);
    assert r.Done?;
    assert r.pos == pos + ModRmLength(bytes[pos]);
  }

  /** ImmediateToRmText when S applies: the one immediate byte prints as an int8. */
  lemma ImmediateToRmSignedText(mnemonic: string, ext: Field3, name: string, honoursSign: bool, op: Byte,
                                bytes: seq<Byte>, pos: nat)
    requires pos <= |bytes| && honoursSign && Bit1(op) == 1
    requires ImmediateToRm(mnemonic, ext, name, honoursSign, op, bytes, pos).Done?
    ensures
      var f := ParseOperand(bytes[pos]);
      var at := pos + ModRmLength(bytes[pos]);
      ImmediateToRm(mnemonic, ext, name, honoursSign, op, bytes, pos).value ==
        mnemonic + " " + RmOperand(name, bytes, pos + 1, f.0, f.2, Bit0(op) == 1).value + ", " +
        SizePrefix(f.0, Bit0(op) == 1) + IntToString(Int8(bytes[at])) + "\n"
  {
    var f := ParseOperand(bytes[pos]);
    var r := RmOperand(name, bytes, pos + 1, f.0, f.2, Bit0(op) == 1);
    assert r.Done?;
    var at := pos + ModRmLength(bytes[pos]);
    assert r.pos == at;
    var i := ReadImmediate(name, bytes, at, false);
    assert i.Done? && i.value == bytes[at] as int;
    ByteModulus(i.value);
  }

  /** Proof step for ImmediateToRmSignedText: a value below 256 is its own remainder modulo 256. */
  lemma ByteModulus(v: int)
    requires 0 <= v < 256
    ensures v % 256 == v
  {
  }





  /**
   * `[opcode|w] [mod|ext|r/m] [disp]` rendered `mnemonic size X` for memory and `mnemonic X`
   * for a register. The REG field must equal `ext`.
   */
  function Unary(mnemonic: string, ext: Field3, name: string, op: Byte, bytes: seq<Byte>, pos: nat): (o: Outcome<string>)
    requires pos <= |bytes|
    ensures pos == |bytes| ==> o == Fail(Missing(name, Operand), pos)
    ensures pos < |bytes| && ParseOperand(bytes[pos]).1 != ext ==> o == Fail(BadReg(name, ext), pos + 1)
    ensures o.Done? <==>
      pos < |bytes| && ParseOperand(bytes[pos]).1 == ext && pos + ModRmLength(bytes[pos]) <= |bytes|
    ensures o.Done? ==> o.pos == pos + ModRmLength(bytes[pos])
    ensures o.Done? ==>
      var f := ParseOperand(bytes[pos]);
      o.value == mnemonic + " " + SizePrefix(f.0, Bit0(op) == 1) +
        RmOperand(name, bytes, pos + 1, f.0, f.2, Bit0(op) == 1).value + "\n"
  {
    if pos == |bytes| then
      Fail(Missing(name, Operand), pos)
    else
      var f := ParseOperand(bytes[pos]);
      var isWord := Bit0(op) == 1;
      if f.1 != ext then
        Fail(BadReg(name, ext), pos + 1)
      else
        match RmOperand(name, bytes, pos + 1, f.0, f.2, isWord)
        case Fail(e, p) => Fail(e, p)
        case Done(dest, p) =>
          Done(mnemonic + " " + SizePrefix(f.0, isWord) + dest + "\n", p)
  }

  /** `immediateWithAccumulator`: the accumulator under W = opcode bit 0 and the immediate of that width. */
  function AccumulatorImmediate(name: string, op: Byte, bytes: seq<Byte>, pos: nat): (o: Outcome<(string, Word)>)
    requires pos <= |bytes|
    ensures var r := ReadImmediate(name, bytes, pos, Bit0(op) == 1);
      o.pos == r.pos && (o.Fail? <==> r.Fail?) && (o.Fail? ==> o.error == r.error) &&
      (o.Done? ==> o.value == (Accumulator(Bit0(op) == 1), r.value))
  {
    var isWord := Bit0(op) == 1;
    match ReadImmediate(name, bytes, pos, isWord)
    case Fail(e, p) => Fail(e, p)
    case Done(imm, p) => Done((Accumulator(isWord), imm), p)
  }

  /** `[opcode|w] [data] [data if w = 1]` rendered `mnemonic al|ax, value` with the value unsigned. */
  function AccumulatorWithImmediate(mnemonic: string, name: string, op: Byte, bytes: seq<Byte>, pos: nat): (o: Outcome<string>)
    requires pos <= |bytes|
    ensures o.Done? <==> pos + Width(Bit0(op) == 1) <= |bytes|
    ensures o.Done? ==> o.pos == pos + Width(Bit0(op) == 1)
    ensures o.Done? ==> (o.value == mnemonic + " " + Accumulator(Bit0(op) == 1) + ", " +
      NatToString(ReadImmediate(name, bytes, pos, Bit0(op) == 1).value) + "\n")
    ensures o.Fail? ==> var r := ReadImmediate(name, bytes, pos, Bit0(op) == 1); o.error == r.error && o.pos == r.pos
  {
    match AccumulatorImmediate(name, op, bytes, pos)
    case Fail(e, p) => Fail(e, p)
    case Done(r, p) => Done(mnemonic + " " + r.0 + ", " + NatToString(r.1) + "\n", p)
  }

  /** `regOrMemWithReg`. */
  method RegOrMemWithReg(d: Decoder, name: string, op: Byte) returns (dest: string, src: string, err: Option<Error>)
    requires d.Valid()
    modifies d`pos
    ensures d.Valid()
    ensures Returns(RegOrMemPair(name, op, d.bytes, old(d.pos)), (dest, src), err, d.pos)
  {
    var isWord := Bit0(op) == 1;
    var dir := Bit1(op);
    var operand, ok := d.Next();
    if !ok {
      return "", "", Some(Missing(name, Operand));
    }
    var f := ParseOperand(operand);
    dest, src, err := d.DecodeBinaryRegOrMem(name, f.0, f.1, f.2, isWord, dir);
  }

  /** `immediateWithAccumulator`. */
  method ImmediateWithAccumulator(d: Decoder, name: string, op: Byte) returns (regName: string, value: Word, err: Option<Error>)
    requires d.Valid()
    modifies d`pos
    ensures d.Valid()
    ensures Returns(AccumulatorImmediate(name, op, d.bytes, old(d.pos)), (regName, value), err, d.pos)
  {
    var isWord := Bit0(op) == 1;
    value, err := d.DecodeImmediate(name, isWord);
    if err.Some? {
      return "", 0, err;
    }
    regName := Accumulator(isWord);
  }

  /**
   * `buildImmediateWithRegOrMemInstruction` (used by AND/TEST/OR/XOR): the immediate form without
   * an S bit, so W alone chooses the immediate width and the value prints unsigned.
   */
  method BuildImmediateWithRegOrMemInstruction(d: Decoder, mnemonic: string, ext: Field3, name: string, op: Byte)
    returns (text: string, err: Option<Error>)
    requires d.Valid()
    modifies d`pos
    ensures d.Valid()
    ensures Yields(ImmediateToRm(mnemonic, ext, name, false, op, d.bytes, old(d.pos)), text, err, d.pos)
  {
    var isWord := Bit0(op) == 1;
    var operand, ok := d.Next();
    if !ok {
      return "", Some(Missing(name, Operand));
    }
    var f := ParseOperand(operand);
    if f.1 != ext {
      return "", Some(BadReg(name, ext));
    }
    var dest;
    dest, err := d.DecodeUnaryRegOrMem(name, f.0, f.2, isWord);
    if err.Some? {
      return "", err;
    }
    assert RmOperand(name, d.bytes, old(d.pos) + 1, f.0, f.2, isWord) == Done(dest, d.pos);
    ghost var at := d.pos;
    var value;
    value, err := d.DecodeImmediate(name, isWord);
    if err.Some? {
      return "", err;
    }
    assert ReadImmediate(name, d.bytes, at, isWord) == Done(value, d.pos);
    text := mnemonic + " " + dest + ", " + SizePrefix(f.0, isWord) + NatToString(value) + "\n";
  }

  /**
   * `buildImmediateWithRegOrMemArithmeticInstruction` of the simulator's decoder, whose body the
   * disassembler repeats in each of its four immediate-to-reg/mem ALU builders: the immediate form
   * with the S bit honoured.
   */
  method BuildImmediateWithRegOrMemArithmeticInstruction(mnemonic: string, regPattern: Field3, name: string,
                                                         op: Byte, d: Decoder)
    returns (text: string, err: Option<Error>)
    requires d.Valid()
    modifies d`pos
    ensures d.Valid()
    ensures Yields(ImmediateToRm(mnemonic, regPattern, name, true, op, d.bytes, old(d.pos)), text, err, d.pos)
  {
    var isWord := Bit0(op) == 1;
    var isSigned := Bit1(op) == 1;
    var operand, ok := d.Next();
    if !ok {
      return "", Some(Missing(name, Operand));
    }
    var f := ParseOperand(operand);
    var mod, reg, rm := f.0, f.1, f.2;
    if reg != regPattern {
      return "", Some(BadReg(name, regPattern));
    }
    var dest;
    dest, err := d.DecodeUnaryRegOrMem(name, mod, rm, isWord);
    if err.Some? {
      return "", err;
    }
    assert RmOperand(name, d.bytes, old(d.pos) + 1, mod, rm, isWord) == Done(dest, d.pos);
    ghost var at := d.pos;
    var imm;
    imm, err := d.DecodeImmediate(name, isWord && !isSigned);
    if err.Some? {
      return "", err;
    }
    assert ReadImmediate(name, d.bytes, at, isWord && !isSigned) == Done(imm, d.pos);
    text := mnemonic + " " + dest + ", ";
    if mod != RegisterMode {
      text := text + SizeKeyword(isWord) + " ";
    }
    assert text == mnemonic + " " + dest + ", " + SizePrefix(mod, isWord);
    var value;
    if isSigned {
      value := IntToString(Int8(imm % 256));
    } else {
      value := NatToString(imm);
    }
    text := text + value + "\n";
  }
}
