// The MOV builders of part1/pkg/decoder/move.go.

module Move {
  import opened Numeric
  import opened Decimal
  import opened Outcomes
  import opened Engine
  import opened Forms

  const ImmediateToRegOrMemName := "immediate to register/memory"
  const RegMemToRegName := "Register/memory to/from register"

  /**
   * `[1100011|w] [mod|000|r/m] [disp] [data] [data if w=1]`: the destination, then the
   * immediate of width W, rendered `mov dest, [size ]imm[ ; or <int16>]`.
   */
  function ImmediateToRegOrMem(op: Byte, bytes: seq<Byte>, pos: nat): (o: Outcome<string>)
    requires pos <= |bytes|
    ensures pos == |bytes| ==> o == Fail(Missing(ImmediateToRegOrMemName, Operand), pos)
    ensures pos < |bytes| && ParseOperand(bytes[pos]).1 != 0 ==>
      o == Fail(BadReg(ImmediateToRegOrMemName, 0), pos + 1)
    ensures o.Done? <==>
      pos < |bytes| && ParseOperand(bytes[pos]).1 == 0 &&
      pos + ModRmLength(bytes[pos]) + Width(Bit0(op) == 1) <= |bytes|
    ensures o.Done? ==> o.pos == pos + ModRmLength(bytes[pos]) + Width(Bit0(op) == 1)
    ensures o.Fail? ==> o.pos <= |bytes|
  {
    if pos == |bytes| then
      Fail(Missing(ImmediateToRegOrMemName, Operand), pos)
    else
      var f := ParseOperand(bytes[pos]);
      var isWord := Bit0(op) == 1;
      if f.1 != 0 then
        Fail(BadReg(ImmediateToRegOrMemName, 0), pos + 1)
      else
        match RmOperand(ImmediateToRegOrMemName, bytes, pos + 1, f.0, f.2, isWord)
        case Fail(e, p) => Fail(e, p)
        case Done(dest, p) =>
          match ReadImmediate(ImmediateToRegOrMemName, bytes, p, isWord)
          case Fail(e, q) => Fail(e, q)
          case Done(imm, q) =>
            Done("mov " + dest + ", " + SizePrefix(f.0, isWord) + NatToString(imm) + OrComment(imm) + "\n", q)
  }

  /**
   * The text of a decoded MOV immediate: the immediate follows the displacement and the size
   * keyword appears only for memory.
   */
  lemma ImmediateToRegOrMemText(op: Byte, bytes: seq<Byte>, pos: nat)
    requires pos <= |bytes|
    requires ImmediateToRegOrMem(op, bytes, pos).Done?
    ensures var f := ParseOperand(bytes[pos]);
      var isWord := Bit0(op) == 1;
      var at := pos + ModRmLength(bytes[pos]);
      var imm := ReadImmediate(ImmediateToRegOrMemName, bytes, at, isWord).value;
      ImmediateToRegOrMem(op, bytes, pos).value ==
        "mov " + RmOperand(ImmediateToRegOrMemName, bytes, pos + 1, f.0, f.2, isWord).value + ", " +
        SizePrefix(f.0, isWord) + NatToString(imm) + OrComment(imm) + "\n"
  {
    var f := ParseOperand(bytes[pos]);
    var isWord := Bit0(op) == 1;
    var r := RmOperand(ImmediateToRegOrMemName, bytes, pos + 1, f.0, f.2, isWord);
    assert r.Done? && r.pos == pos + ModRmLength(bytes[pos]);
    var i := ReadImmediate(ImmediateToRegOrMemName, bytes, r.pos, isWord);
    assert i.Done?;
  }

  /** The ` ; or` comment of a MOV immediate appears exactly for a word whose int16 reading is negative, never for a byte. */
  lemma ImmediateCommentOnlyForNegativeWords(bytes: seq<Byte>, at: nat, isWord: bool)
    requires at <= |bytes|
    requires ReadImmediate(ImmediateToRegOrMemName, bytes, at, isWord).Done?
    ensures var imm := ReadImmediate(ImmediateToRegOrMemName, bytes, at, isWord).value;
      OrComment(imm) != "" <==> isWord && Int16(imm) < 0
  {
  }

  /** `[1011|w|reg] [data] [data if w = 1]`: W is opcode bit 3 and the register is bits 0-2. */
  function ImmediateToReg(name: string, op: Byte, bytes: seq<Byte>, pos: nat): (o: Outcome<string>)
    requires pos <= |bytes|
    ensures var r := ReadImmediate(name, bytes, pos, Bit3(op) == 1);
      o.pos == r.pos && (o.Fail? <==> r.Fail?) && (o.Fail? ==> o.error == r.error) &&
      (o.Done? ==> o.value == "mov " + RegisterName(Low3(op), Bit3(op) == 1) + ", " +
                              NatToString(r.value) + OrComment(r.value) + "\n")
  {
    var isWord := Bit3(op) == 1;
    var regName := RegisterName(Low3(op), isWord);
    match ReadImmediate(name, bytes, pos, isWord)
    case Fail(e, p) => Fail(e, p)
    case Done(imm, p) =>
      if Int16(imm) < 0 then Done("mov " + regName + ", " + NatToString(imm) + " ; or " + IntToString(Int16(imm)) + "\n", p)
      else Done("mov " + regName + ", " + NatToString(imm) + "\n", p)
  }

  /** `[1010000w] [addr-lo] [addr-hi]` rendered `mov al|ax, [addr]`. */
  function MemoryToAccumulator(name: string, op: Byte, bytes: seq<Byte>, pos: nat): (o: Outcome<string>)
    requires pos <= |bytes|
    ensures var r := ReadAddress(name, bytes, pos, Bit0(op) == 1);
      o.pos == r.pos && (o.Fail? <==> r.Fail?) && (o.Fail? ==> o.error == r.error) &&
      (o.Done? ==> o.value == "mov " + RegisterName(0, Bit0(op) == 1) + ", [" + NatToString(r.value) + "]\n")
  {
    var isWord := Bit0(op) == 1;
    match ReadAddress(name, bytes, pos, isWord)
    case Fail(e, p) => Fail(e, p)
    case Done(address, p) => Done("mov " + Accumulator(isWord) + ", [" + NatToString(address) + "]\n", p)
  }

  /** `[1010001w] [addr-lo] [addr-hi]` rendered `mov [addr], al|ax`. */
  function AccumulatorToMemory(name: string, op: Byte, bytes: seq<Byte>, pos: nat): (o: Outcome<string>)
    requires pos <= |bytes|
    ensures var r := ReadAddress(name, bytes, pos, Bit0(op) == 1);
      o.pos == r.pos && (o.Fail? <==> r.Fail?) && (o.Fail? ==> o.error == r.error) &&
      (o.Done? ==> o.value == "mov [" + NatToString(r.value) + "], " + RegisterName(0, Bit0(op) == 1) + "\n")
  {
    var isWord := Bit0(op) == 1;
    match ReadAddress(name, bytes, pos, isWord)
    case Fail(e, p) => Fail(e, p)
    case Done(address, p) => Done("mov [" + NatToString(address) + "], " + Accumulator(isWord) + "\n", p)
  }

  /**
   * The MOD switch `moveImmediateToRegOrMem` writes out inline: the destination operand and the
   * displacement or direct-address bytes it needs, with that instruction's messages.
   */
  method DecodeDestination(name: string, mod: Field2, rm: Field3, isWord: bool, d: Decoder)
    returns (dest: string, err: Option<Error>)
    requires d.Valid()
    modifies d`pos
    ensures d.Valid()
    ensures Returns(RmOperand(name, d.bytes, old(d.pos), mod, rm, isWord), dest, err, d.pos)
  {
    if mod == MemoryModeNoDisplacement {
      var equation: string;
      if rm == DirectAddressRm {
        var low, ok := d.Next();
        if !ok {
          return "", Some(Missing(name, DirectAddressLow));
        }
        var high;
        high, ok := d.Next();
        if !ok {
          return "", Some(Missing(name, DirectAddressHigh));
        }
        equation := NatToString(LittleEndian(low, high));
      } else {
        equation := EffectiveAddressEquations[rm];
      }
      dest := "[" + equation + "]";
    } else if mod == MemoryMode8Displacement {
      var displacement, ok := d.Next();
      if !ok {
        return "", Some(Missing(name, Displacement));
      }
      var signed := Int8(displacement);
      dest := Displaced(EffectiveAddressEquations[rm], signed, Negate8(signed), displacement);
    } else if mod == MemoryMode16Displacement {
      var low, ok := d.Next();
      if !ok {
        return "", Some(Missing(name, DisplacementLow));
      }
      var high;
      high, ok := d.Next();
      if !ok {
        return "", Some(Missing(name, DisplacementHigh));
      }
      var value := LittleEndian(low, high);
      var signed := Int16(value);
      dest := Displaced(EffectiveAddressEquations[rm], signed, Negate16(signed), value);
    } else {
      dest := RegisterName(rm, isWord);
    }
    err := None;
  }

  /**
   * `moveImmediateToRegOrMem`: the operand byte, the REG check, the destination (DecodeDestination)
   * and then the immediate, whose reads and messages are those of Decoder.DecodeImmediate.
   */
  method MoveImmediateToRegOrMem(op: Byte, d: Decoder) returns (text: string, err: Option<Error>)
    requires d.Valid()
    modifies d`pos
    ensures d.Valid()
    ensures Yields(ImmediateToRegOrMem(op, d.bytes, old(d.pos)), text, err, d.pos)
  {
    var name := ImmediateToRegOrMemName;
    var isWord := Bit0(op) == 1;
    var operand, ok := d.Next();
    if !ok {
      return "", Some(Missing(name, Operand));
    }
    var f := ParseOperand(operand);
    var mod, reg, rm := f.0, f.1, f.2;
    if reg != 0 {
      return "", Some(BadReg(name, 0));
    }
    var dest;
    dest, err := DecodeDestination(name, mod, rm, isWord, d);
    if err.Some? {
      return "", err;
    }
    var imm;
    imm, err := d.DecodeImmediate(name, isWord);
    if err.Some? {
      return "", err;
    }
    text := "mov " + dest + ", ";
    if mod != RegisterMode {
      text := text + SizeKeyword(isWord) + " ";
    }
    assert text == "mov " + dest + ", " + SizePrefix(mod, isWord);
    var comment := "";
    if Int16(imm) < 0 {
      comment := " ; or " + IntToString(Int16(imm));
    }
    assert comment == OrComment(imm);
    text := text + NatToString(imm) + comment + "\n";
    err := None;
  }

  /** `moveImmediateToReg`. */
  method MoveImmediateToReg(op: Byte, d: Decoder) returns (text: string, err: Option<Error>)
    requires d.Valid()
    modifies d`pos
    ensures d.Valid()
    ensures Yields(ImmediateToReg("MOV: immediate to register", op, d.bytes, old(d.pos)), text, err, d.pos)
  {
    var isWord := Bit3(op) == 1;
    var regName := RegisterName(Low3(op), isWord);
    var imm;
    imm, err := d.DecodeImmediate("MOV: immediate to register", isWord);
    if err.Some? {
      return "", err;
    }
    if Int16(imm) < 0 {
      text := "mov " + regName + ", " + NatToString(imm) + " ; or " + IntToString(Int16(imm)) + "\n";
    } else {
      text := "mov " + regName + ", " + NatToString(imm) + "\n";
    }
  }

  /** `moveRegMemToReg`: D is opcode bit 1, W is bit 0, then decodeRegOrMem. */
  method MoveRegMemToReg(op: Byte, d: Decoder) returns (text: string, err: Option<Error>)
    requires d.Valid()
    modifies d`pos
    ensures d.Valid()
    ensures Yields(RegMemWithReg("mov", RegMemToRegName, op, d.bytes, old(d.pos)), text, err, d.pos)
  {
    var dir := Bit1(op);
    var isWord := Bit0(op) == 1;
    var operand, ok := d.Next();
    if !ok {
      return "", Some(Missing(RegMemToRegName, Operand));
    }
    var f := ParseOperand(operand);
    var dest, src;
    dest, src, err := d.DecodeRegOrMem(RegMemToRegName, f.0, f.1, f.2, isWord, dir);
    if err.Some? {
      return "", err;
    }
    assert RegOrMemPair(RegMemToRegName, op, d.bytes, old(d.pos)).value == (dest, src);
    assert "mov" + " " == "mov ";
    text := "mov " + dest + ", " + src + "\n";
  }

  /** `moveMemoryToAccumulator`. */
  method MoveMemoryToAccumulator(op: Byte, d: Decoder) returns (text: string, err: Option<Error>)
    requires d.Valid()
    modifies d`pos
    ensures d.Valid()
    ensures Yields(MemoryToAccumulator("MOV: memory to accumulator", op, d.bytes, old(d.pos)), text, err, d.pos)
  {
    var isWord := Bit0(op) == 1;
    var regName := Accumulator(isWord);
    var address;
    address, err := d.DecodeAddress("MOV: memory to accumulator", isWord);
    if err.Some? {
      return "", err;
    }
    text := "mov " + regName + ", [" + NatToString(address) + "]\n";
  }

  /** `moveAccumulatorToMemory`. */
  method MoveAccumulatorToMemory(op: Byte, d: Decoder) returns (text: string, err: Option<Error>)
    requires d.Valid()
    modifies d`pos
    ensures d.Valid()
    ensures Yields(AccumulatorToMemory("MOV: accumulator to address", op, d.bytes, old(d.pos)), text, err, d.pos)
  {
    var isWord := Bit0(op) == 1;
    var address;
    address, err := d.DecodeAddress("MOV: accumulator to address", isWord);
    if err.Some? {
      return "", err;
    }
    text := "mov [" + NatToString(address) + "], " + Accumulator(isWord) + "\n";
  }
}
