// The data-transfer builders of performance-aware-programming/sim8086/pkg/decoder/data-transfer.go.
// Several are those of the part1 package word for word, with the same messages, and are not
// repeated: `moveImmediateToRegOrMem`, `pushRegOrMem`, `popRegOrMem`, `pushReg`, `popReg`,
// `pushSegmentReg` and `popSegmentReg` are DataTransfer's members, and `moveImmediateToReg`,
// `moveMemoryToAccumulator` and `moveAccumulatorToMemory` are Move's. The rest are below.
// The segment moves guard the SR field with a mask that is zero, so the guard never fires; they
// are modelled as written next to the guard the message describes.

module SimDataTransfer {
  import opened Numeric
  import opened Decimal
  import opened Outcomes
  import opened Engine
  import opened Forms

  const RegMemToRegName := "Register/memory to/from register"
  const ToSegmentName := "MOV: Register/memory to segment"
  const FromSegmentName := "MOV: Segment to register/memory"
  const ExchangeName := "XCHG: Register/memory with register"
  const InFixedName := "IN: from fixed port"
  const OutFixedName := "OUT: to a fixed port"

  /** `[mnemonic] [mod|reg|r/m]` with W and D given rather than read from the opcode. */
  function RegMemNamed(mnemonic: string, name: string, isWord: bool, dir: Bit, bytes: seq<Byte>, pos: nat)
    : (o: Outcome<string>)
    requires pos <= |bytes|
    ensures pos == |bytes| ==> o == Fail(Missing(name, Operand), pos)
    ensures pos < |bytes| ==> (o.Done? <==> pos + ModRmLength(bytes[pos]) <= |bytes|)
    ensures o.Done? ==> o.pos == pos + ModRmLength(bytes[pos])
    ensures o.Fail? ==> o.pos == |bytes| && o.error.Missing? && o.error.instruction == name
    ensures o.Done? && dir == RegIsDestination ==>
      var f := ParseOperand(bytes[pos]);
      o.value == mnemonic + " " + RegisterName(f.1, isWord) + ", " + RmOperand(name, bytes, pos + 1, f.0, f.2, isWord).value + "\n"
    ensures o.Done? && dir == RegIsSource ==>
      var f := ParseOperand(bytes[pos]);
      o.value == mnemonic + " " + RmOperand(name, bytes, pos + 1, f.0, f.2, isWord).value + ", " + RegisterName(f.1, isWord) + "\n"
  {
    if pos == |bytes| then
      Fail(Missing(name, Operand), pos)
    else
      var f := ParseOperand(bytes[pos]);
      match OperandPair(name, bytes, pos + 1, f.0, RegisterName(f.1, isWord), f.2, isWord, dir)
      case Fail(e, p) => Fail(e, p)
      case Done(pair, p) => Done(mnemonic + " " + pair.0 + ", " + pair.1 + "\n", p)
  }

  /** With W and D taken from the opcode, the named form is the package's reg/mem form. */
  lemma RegMemNamedIsRegMemWithReg(mnemonic: string, name: string, op: Byte, bytes: seq<Byte>, pos: nat)
    requires pos <= |bytes|
    ensures RegMemNamed(mnemonic, name, Bit0(op) == 1, Bit1(op), bytes, pos) == RegMemWithReg(mnemonic, name, op, bytes, pos)
  {
    if pos < |bytes| {
      var f := ParseOperand(bytes[pos]);
      assert RegOrMem(name, bytes, pos + 1, f.0, f.1, f.2, Bit0(op) == 1, Bit1(op)) ==
        OperandPair(name, bytes, pos + 1, f.0, RegisterName(f.1, Bit0(op) == 1), f.2, Bit0(op) == 1, Bit1(op));
    }
  }

  /** `moveRegMemToReg` over decodeBinaryRegOrMem with the REG operand named from the W table. */
  method MoveRegMemToReg(op: Byte, d: Decoder) returns (text: string, err: Option<Error>)
    requires d.Valid()
    modifies d`pos
    ensures d.Valid()
    ensures Yields(RegMemWithReg("mov", RegMemToRegName, op, d.bytes, old(d.pos)), text, err, d.pos)
  {
    RegMemNamedIsRegMemWithReg("mov", RegMemToRegName, op, d.bytes, d.pos);
    var dir := Bit1(op);
    var isWord := Bit0(op) == 1;
    var operand, ok := d.Next();
    if !ok {
      return "", Some(Missing(RegMemToRegName, Operand));
    }
    var f := ParseOperand(operand);
    var regName := if isWord then WordRegisters[f.1] else ByteRegisters[f.1];
    var dest, src;
    dest, src, err := d.DecodeNamedRegOrMem(RegMemToRegName, f.0, regName, f.2, isWord, dir);
    if err.Some? {
      return "", err;
    }
    assert "mov" + " " == "mov ";
    text := "mov " + dest + ", " + src + "\n";
  }

  /** Go's `a & m` on three-bit values. */
  function BitAnd3(a: Field3, m: Field3): Field3
  {
    ((a as bv3) & (m as bv3)) as int
  }

  /** The three masks the segment moves use: 000 clears everything, 100 keeps the high bit, 011 the SR field. */
  lemma BitAnd3Masks(a: Field3)
    ensures BitAnd3(a, 0) == 0
    ensures BitAnd3(a, 4) != 0 <==> a >= 4
    ensures BitAnd3(a, 3) == a % 4
  {
    var b := a as bv3;
    assert b & 0 == 0;
    assert (b & 4 != 0) <==> b >= 4;
    assert (b & 3) as int == a % 4 by {
      assert b == (b & 3) | (b & 4);
    }
  }

  /**
   * `[1000111|0] [mod|0|SR|r/m] [disp]`, always a word: the REG field is rejected when its bits
   * under `mask` are not all zero, and otherwise names the segment register `reg & 0b011`.
   * D is fixed by the opcode: the segment is the destination (RegIsDestination) or the source.
   */
  function SegmentMove(name: string, dir: Bit, mask: Field3, bytes: seq<Byte>, pos: nat): (o: Outcome<string>)
    requires pos <= |bytes|
    ensures pos == |bytes| ==> o == Fail(Missing(name, Operand), pos)
    ensures o.Fail? && o.error == BadRegHighBit(name) <==>
      pos < |bytes| && BitAnd3(ParseOperand(bytes[pos]).1, mask) != 0
    ensures o.Done? <==>
      pos < |bytes| && BitAnd3(ParseOperand(bytes[pos]).1, mask) == 0 && pos + ModRmLength(bytes[pos]) <= |bytes|
    ensures o.Done? ==> o.pos == pos + ModRmLength(bytes[pos])
    ensures o.Done? ==> SegmentName(ParseOperand(bytes[pos]).1 % 4) != ""
    ensures o.Done? && dir == RegIsDestination ==>
      var f := ParseOperand(bytes[pos]);
      o.value == "mov " + SegmentName(f.1 % 4) + ", " + RmOperand(name, bytes, pos + 1, f.0, f.2, true).value + "\n"
    ensures o.Done? && dir == RegIsSource ==>
      var f := ParseOperand(bytes[pos]);
      o.value == "mov " + RmOperand(name, bytes, pos + 1, f.0, f.2, true).value + ", " + SegmentName(f.1 % 4) + "\n"
  {
    if pos == |bytes| then
      Fail(Missing(name, Operand), pos)
    else
      var f := ParseOperand(bytes[pos]);
      BitAnd3Masks(f.1);
      if BitAnd3(f.1, mask) != 0 then
        Fail(BadRegHighBit(name), pos + 1)
      else
        var sr := BitAnd3(f.1, 3);
        match OperandPair(name, bytes, pos + 1, f.0, SegmentName(sr), f.2, true, dir)
        case Fail(e, p) => Fail(e, p)
        case Done(pair, p) => Done("mov " + pair.0 + ", " + pair.1 + "\n", p)
  }

  /** The segment move as the source writes its guard, `reg & 0b000 != 0`. */
  function SegmentMoveAsWritten(name: string, dir: Bit, bytes: seq<Byte>, pos: nat): Outcome<string>
    requires pos <= |bytes|
  {
    SegmentMove(name, dir, 0, bytes, pos)
  }

  /** The segment move with the guard its message states: the REG field must start with 0. */
  function SegmentMoveCorrected(name: string, dir: Bit, bytes: seq<Byte>, pos: nat): Outcome<string>
    requires pos <= |bytes|
  {
    SegmentMove(name, dir, 4, bytes, pos)
  }

  /** `moveRegOrMemToSegment` `[10001110]`, as written. */
  method MoveRegOrMemToSegment(op: Byte, d: Decoder) returns (text: string, err: Option<Error>)
    requires d.Valid()
    modifies d`pos
    ensures d.Valid()
    ensures Yields(SegmentMoveAsWritten(ToSegmentName, RegIsDestination, d.bytes, old(d.pos)), text, err, d.pos)
  {
    text, err := MoveSegment(ToSegmentName, RegIsDestination, d);
  }

  /** `moveSegmentToRegOrMem` `[10001100]`, as written. */
  method MoveSegmentToRegOrMem(op: Byte, d: Decoder) returns (text: string, err: Option<Error>)
    requires d.Valid()
    modifies d`pos
    ensures d.Valid()
    ensures Yields(SegmentMoveAsWritten(FromSegmentName, RegIsSource, d.bytes, old(d.pos)), text, err, d.pos)
  {
    text, err := MoveSegment(FromSegmentName, RegIsSource, d);
  }

  /** The body the two segment moves share, with their guard `reg & 0b000`. */
  method MoveSegment(name: string, dir: Bit, d: Decoder) returns (text: string, err: Option<Error>)
    requires d.Valid()
    modifies d`pos
    ensures d.Valid()
    ensures Yields(SegmentMoveAsWritten(name, dir, d.bytes, old(d.pos)), text, err, d.pos)
  {
    var operand, ok := d.Next();
    if !ok {
      return "", Some(Missing(name, Operand));
    }
    var f := ParseOperand(operand);
    var mod, reg, rm := f.0, f.1, f.2;
    BitAnd3Masks(reg);
    if BitAnd3(reg, 0) != 0 {
      return "", Some(BadRegHighBit(name));
    }
    var sr := BitAnd3(reg, 3);
    var regName := SegmentName(sr);
    var dest, src;
    dest, src, err := d.DecodeNamedRegOrMem(name, mod, regName, rm, true, dir);
    if err.Some? {
      return "", err;
    }
    text := "mov " + dest + ", " + src + "\n";
  }

  /**
   * The corrected guard rejects exactly the REG values 100-111 and accepts the others as the code
   * as written does, so every segment move it accepts names one of es, cs, ss, ds by its SR field.
   */
  lemma SegmentMoveCorrectedGuard(name: string, dir: Bit, bytes: seq<Byte>, pos: nat)
    requires pos < |bytes|
    ensures ParseOperand(bytes[pos]).1 >= 4 ==>
      SegmentMoveCorrected(name, dir, bytes, pos) == Fail(BadRegHighBit(name), pos + 1)
    ensures ParseOperand(bytes[pos]).1 < 4 ==>
      SegmentMoveCorrected(name, dir, bytes, pos) == SegmentMoveAsWritten(name, dir, bytes, pos)
  {
    var f := ParseOperand(bytes[pos]);
    BitAnd3Masks(f.1);
  }

  /**
   * As written, the guard never fires: REG values 100-111 are accepted and print the segment
   * register of their low two bits, the same text as REG 000-011.
   */
  lemma SegmentMoveAsWrittenAcceptsHighBit(name: string, dir: Bit, bytes: seq<Byte>, pos: nat)
    requires pos < |bytes|
    ensures SegmentMoveAsWritten(name, dir, bytes, pos).Done? <==> pos + ModRmLength(bytes[pos]) <= |bytes|
    ensures !SegmentMoveAsWritten(name, dir, bytes, pos).Fail? ||
      SegmentMoveAsWritten(name, dir, bytes, pos).error != BadRegHighBit(name)
  {
    BitAnd3Masks(ParseOperand(bytes[pos]).1);
  }

  /** `mov` with bytes 8E E0 (REG 100): printed as `mov es, ax` where the guard meant to reject it. */
  lemma SegmentMoveCounterexample()
    ensures SegmentMoveAsWritten(ToSegmentName, RegIsDestination, [0xE0], 0) == Done("mov es, ax\n", 1)
    ensures SegmentMoveCorrected(ToSegmentName, RegIsDestination, [0xE0], 0) == Fail(BadRegHighBit(ToSegmentName), 1)
  {
    assert ParseOperand(0xE0) == (3, 4, 0);
    BitAnd3Masks(4);
    assert SegmentName(4 % 4) == "es";
    assert "mov " + "es" + ", " + "ax" + "\n" == "mov es, ax\n";
  }

  /** `exchangeRegOrMemWithReg` `[1000011|w]`: REG is always the source, whatever bit 1 holds. */
  function Exchange(op: Byte, bytes: seq<Byte>, pos: nat): Outcome<string>
    requires pos <= |bytes|
  {
    RegMemNamed("xchg", ExchangeName, Bit0(op) == 1, RegIsSource, bytes, pos)
  }

  /**
   * Opcodes that agree on W exchange alike; each is the package's reg/mem form for the opcode with
   * bit 1 cleared.
   */
  lemma ExchangeIgnoresDirection(a: Byte, b: Byte, bytes: seq<Byte>, pos: nat)
    requires pos <= |bytes|
    requires Bit0(a) == Bit0(b)
    ensures Exchange(a, bytes, pos) == Exchange(b, bytes, pos)
    ensures Exchange(a, bytes, pos) == RegMemWithReg("xchg", ExchangeName, ClearDirection(a), bytes, pos)
  {
    RegMemNamedIsRegMemWithReg("xchg", ExchangeName, ClearDirection(a), bytes, pos);
  }

  /** The opcode with its D bit (bit 1) cleared: the W bit is kept and the operand order is reg/mem first. */
  function ClearDirection(a: Byte): (c: Byte)
    ensures Bit0(c) == Bit0(a) && Bit1(c) == 0
    ensures c == a || c == a - 2
  {
    if Bit1(a) == 1 then a - 2 else a
  }

  /** `exchangeRegOrMemWithReg`. */
  method ExchangeRegOrMemWithReg(op: Byte, d: Decoder) returns (text: string, err: Option<Error>)
    requires d.Valid()
    modifies d`pos
    ensures d.Valid()
    ensures Yields(Exchange(op, d.bytes, old(d.pos)), text, err, d.pos)
  {
    var isWord := Bit0(op) == 1;
    var operand, ok := d.Next();
    if !ok {
      return "", Some(Missing(ExchangeName, Operand));
    }
    var f := ParseOperand(operand);
    var regName := if isWord then WordRegisters[f.1] else ByteRegisters[f.1];
    var dest, src;
    dest, src, err := d.DecodeNamedRegOrMem(ExchangeName, f.0, regName, f.2, isWord, RegIsSource);
    if err.Some? {
      return "", err;
    }
    assert "xchg" + " " == "xchg ";
    text := "xchg " + dest + ", " + src + "\n";
  }

  /** `exchangeRegWithAccumulator` `[10010|reg]`: `xchg ax, R` with R a word register; no byte follows. */
  function ExchangeWithAccumulator(op: Byte): string
  {
    WordRegisterForm("xchg ax,", op)
  }

  /** The accumulator exchange names the word register of opcode bits 0-2 and nothing else. */
  lemma ExchangeWithAccumulatorRegister(a: Byte, b: Byte)
    ensures ExchangeWithAccumulator(a) == ExchangeWithAccumulator(b) <==> Low3(a) == Low3(b)
    ensures ExchangeWithAccumulator(a) == "xchg ax, " + WordRegisters[Low3(a)] + "\n"
  {
    WordRegisterFormInjective("xchg ax,", a, b);
  }

  /** `inputFromFixedPort` `[1110010|w] [port]`: `in al|ax, port`. */
  function InFixedPort(op: Byte, bytes: seq<Byte>, pos: nat): (o: Outcome<string>)
    requires pos <= |bytes|
    ensures o.Fail? <==> pos == |bytes|
    ensures o.Fail? ==> o == Fail(Missing(InFixedName, PortNumber), pos)
    ensures o.Done? ==> o.pos == pos + 1
    ensures o.Done? ==> o.value == "in " + RegisterName(0, Bit0(op) == 1) + ", " + NatToString(bytes[pos]) + "\n"
  {
    var acc := Accumulator(Bit0(op) == 1);
    if pos == |bytes| then Fail(Missing(InFixedName, PortNumber), pos)
    else Done("in " + acc + ", " + NatToString(bytes[pos]) + "\n", pos + 1)
  }

  /** `outputToFixedPort` `[1110011|w] [port]`: `out port, al|ax`. */
  function OutFixedPort(op: Byte, bytes: seq<Byte>, pos: nat): (o: Outcome<string>)
    requires pos <= |bytes|
    ensures o.Fail? <==> pos == |bytes|
    ensures o.Fail? ==> o == Fail(Missing(OutFixedName, PortNumber), pos)
    ensures o.Done? ==> o.pos == pos + 1
    ensures o.Done? ==> o.value == "out " + NatToString(bytes[pos]) + ", " + RegisterName(0, Bit0(op) == 1) + "\n"
  {
    var acc := Accumulator(Bit0(op) == 1);
    if pos == |bytes| then Fail(Missing(OutFixedName, PortNumber), pos)
    else Done("out " + NatToString(bytes[pos]) + ", " + acc + "\n", pos + 1)
  }

  /** The port number both fixed-port forms print reads back as the port byte. */
  lemma FixedPortReadsBack(op: Byte, bytes: seq<Byte>, pos: nat)
    requires pos < |bytes|
    ensures var t := InFixedPort(op, bytes, pos).value;
      IsDigits(t[7..|t| - 1]) && DigitsValue(t[7..|t| - 1]) == bytes[pos]
    ensures var t := OutFixedPort(op, bytes, pos).value;
      IsDigits(t[4..|t| - 5]) && DigitsValue(t[4..|t| - 5]) == bytes[pos]
  {
    var p := NatToString(bytes[pos]);
    var acc := Accumulator(Bit0(op) == 1);
    var t := InFixedPort(op, bytes, pos).value;
    assert t == "in " + acc + ", " + p + "\n";
    assert t[7..|t| - 1] == p;
    var u := OutFixedPort(op, bytes, pos).value;
    assert u == "out " + p + ", " + acc + "\n";
    assert u[4..|u| - 5] == p;
    NatToStringRoundTrip(bytes[pos]);
  }

  /** `inputFromFixedPort`. */
  method InputFromFixedPort(op: Byte, d: Decoder) returns (text: string, err: Option<Error>)
    requires d.Valid()
    modifies d`pos
    ensures d.Valid()
    ensures Yields(InFixedPort(op, d.bytes, old(d.pos)), text, err, d.pos)
  {
    var acc := if Bit0(op) == 1 then "ax" else "al";
    var port, ok := d.Next();
    if !ok {
      return "", Some(Missing(InFixedName, PortNumber));
    }
    text, err := "in " + acc + ", " + NatToString(port) + "\n", None;
  }

  /** `outputToFixedPort`. */
  method OutputToFixedPort(op: Byte, d: Decoder) returns (text: string, err: Option<Error>)
    requires d.Valid()
    modifies d`pos
    ensures d.Valid()
    ensures Yields(OutFixedPort(op, d.bytes, old(d.pos)), text, err, d.pos)
  {
    var acc := if Bit0(op) == 1 then "ax" else "al";
    var port, ok := d.Next();
    if !ok {
      return "", Some(Missing(OutFixedName, PortNumber));
    }
    text, err := "out " + NatToString(port) + ", " + acc + "\n", None;
  }

  /** `inputFromVariablePort` `[1110110|w]`: `in al|ax, dx`; no byte follows. */
  function InVariablePort(op: Byte): string
  {
    "in " + Accumulator(Bit0(op) == 1) + ", dx\n"
  }

  /** `outputToVariablePort` `[1110111|w]`: `out dx, al|ax`; no byte follows. */
  function OutVariablePort(op: Byte): string
  {
    "out dx, " + Accumulator(Bit0(op) == 1) + "\n"
  }

  /** The variable-port forms name the accumulator by W and the port register dx, and differ from each other. */
  lemma VariablePortForms(a: Byte, b: Byte)
    ensures InVariablePort(a) == InVariablePort(b) <==> Bit0(a) == Bit0(b)
    ensures OutVariablePort(a) == OutVariablePort(b) <==> Bit0(a) == Bit0(b)
    ensures InVariablePort(a) != OutVariablePort(b)
  {
    if Bit0(a) != Bit0(b) {
      assert InVariablePort(a)[4] != InVariablePort(b)[4];
      assert OutVariablePort(a)[9] != OutVariablePort(b)[9];
    }
    assert InVariablePort(a)[1] != OutVariablePort(b)[1];
  }

  /** LEA, LDS and LES: `[opcode] [mod|reg|r/m]`, always a word and REG the destination. */
  datatype LoadOp = Lea | Lds | Les
  {
    function Mnemonic(): string
    {
      match this
      case Lea => "lea"
      case Lds => "lds"
      case Les => "les"
    }

    function Name(): string
    {
      match this
      case Lea => "LEA"
      case Lds => "LDS"
      case Les => "LES"
    }

    function Opcode(): Byte
    {
      match this
      case Lea => 0x8D
      case Lds => 0xC5
      case Les => 0xC4
    }
  }

  /** `lea`, `lds`, `les`. */
  method LoadPointer(l: LoadOp, op: Byte, d: Decoder) returns (text: string, err: Option<Error>)
    requires d.Valid()
    modifies d`pos
    ensures d.Valid()
    ensures Yields(RegMemNamed(l.Mnemonic(), l.Name(), true, RegIsDestination, d.bytes, old(d.pos)), text, err, d.pos)
  {
    var operand, ok := d.Next();
    if !ok {
      return "", Some(Missing(l.Name(), Operand));
    }
    var f := ParseOperand(operand);
    var regName := WordRegisters[f.1];
    var dest, src;
    dest, src, err := d.DecodeNamedRegOrMem(l.Name(), f.0, regName, f.2, true, RegIsDestination);
    if err.Some? {
      return "", err;
    }
    text := l.Mnemonic() + " " + dest + ", " + src + "\n";
  }

  /** The one-byte transfers `xlat`, `lahf`, `sahf`, `pushf`, `popf`. */
  datatype FixedTransfer = Xlat | Lahf | Sahf | Pushf | Popf
  {
    function Opcode(): Byte
    {
      match this
      case Xlat => 0xD7
      case Lahf => 0x9F
      case Sahf => 0x9E
      case Pushf => 0x9C
      case Popf => 0x9D
    }

    function Text(): string
    {
      match this
      case Xlat => "xlat\n"
      case Lahf => "lahf\n"
      case Sahf => "sahf\n"
      case Pushf => "pushf\n"
      case Popf => "popf\n"
    }
  }

  /** The one-byte transfer an opcode encodes, if any. */
  function FixedTransferOf(op: Byte): (t: Option<FixedTransfer>)
    ensures t.Some? ==> t.value.Opcode() == op
  {
    match op
    case 0xD7 => Some(Xlat)
    case 0x9F => Some(Lahf)
    case 0x9E => Some(Sahf)
    case 0x9C => Some(Pushf)
    case 0x9D => Some(Popf)
    case _ => None
  }

  /** Each one-byte transfer is recovered from its opcode, and no two print alike. */
  lemma FixedTransferRoundTrip(t: FixedTransfer, u: FixedTransfer)
    ensures FixedTransferOf(t.Opcode()) == Some(t)
    ensures t.Text() == u.Text() <==> t == u
  {
  }
}
