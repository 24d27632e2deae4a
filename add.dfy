// The ADD builders of part1/pkg/decoder/add.go, the first version of ADD that decoder.go's
// loop dispatches to (arithmetic.go later replaces them). Its immediate-to-accumulator
// builder reads W from opcode bit 3 where the 8086 encodes it in bit 0: the builder is
// modelled as written next to the corrected reading.

module Add {
  import opened Numeric
  import opened Decimal
  import opened Outcomes
  import opened Engine
  import opened Forms

  const RegMemName := "Reg/memory with register to either"
  const AccumulatorName := "ADD: immediate to accumulator"

  /** `addRegOrMemWithReg`: `[000000|d|w] [mod|reg|r/m] [disp]` through decodeRegOrMem. */
  method AddRegOrMemWithReg(op: Byte, d: Decoder) returns (text: string, err: Option<Error>)
    requires d.Valid()
    modifies d`pos
    ensures d.Valid()
    ensures Yields(RegMemWithReg("add", RegMemName, op, d.bytes, old(d.pos)), text, err, d.pos)
  {
    var isWord := Bit0(op) == 1;
    var dir := Bit1(op);
    var operand, ok := d.Next();
    if !ok {
      return "", Some(Missing(RegMemName, Operand));
    }
    var f := ParseOperand(operand);
    var dest, src;
    dest, src, err := d.DecodeRegOrMem(RegMemName, f.0, f.1, f.2, isWord, dir);
    if err.Some? {
      return "", err;
    }
    assert RegOrMemPair(RegMemName, op, d.bytes, old(d.pos)).value == (dest, src);
    assert "add" + " " == "add ";
    text := "add " + dest + ", " + src + "\n";
  }

  /** `addImmediateToRegOrMem` is a stub: it reads nothing, prints nothing and reports no error. */
  method AddImmediateToRegOrMem(op: Byte, d: Decoder) returns (text: string, err: Option<Error>)
    requires d.Valid()
    ensures text == "" && err == None
  {
    text, err := "", None;
  }

  /**
   * `add al|ax, N` with the immediate of the width `isWord` chooses, followed by ` ; or S` when
   * its int16 reading S is negative.
   */
  function AccumulatorAdd(isWord: bool, bytes: seq<Byte>, pos: nat): (o: Outcome<string>)
    requires pos <= |bytes|
    ensures o.Done? <==> pos + Width(isWord) <= |bytes|
    ensures o.Done? ==> o.pos == pos + Width(isWord)
    ensures o.Done? ==> var imm := ReadImmediate(AccumulatorName, bytes, pos, isWord).value;
      o.value == "add " + RegisterName(0, isWord) + ", " + NatToString(imm) + OrComment(imm) + "\n"
    ensures o.Fail? ==> o == Fail(ReadImmediate(AccumulatorName, bytes, pos, isWord).error, |bytes|)
  {
    match ReadImmediate(AccumulatorName, bytes, pos, isWord)
    case Fail(e, p) => Fail(e, p)
    case Done(imm, p) => Done("add " + Accumulator(isWord) + ", " + NatToString(imm) + OrComment(imm) + "\n", p)
  }

  /** `addImmediateToAccumulator` as written: the width is taken from opcode bit 3. */
  function AccumulatorAddAsWritten(op: Byte, bytes: seq<Byte>, pos: nat): (o: Outcome<string>)
    requires pos <= |bytes|
  {
    AccumulatorAdd(Bit3(op) == 1, bytes, pos)
  }

  /** `addImmediateToAccumulator` as the 8086 encodes `[0000010|w]`: the width is opcode bit 0. */
  function AccumulatorAddCorrected(op: Byte, bytes: seq<Byte>, pos: nat): (o: Outcome<string>)
    requires pos <= |bytes|
  {
    AccumulatorAdd(Bit0(op) == 1, bytes, pos)
  }

  /** `addImmediateToAccumulator`, the code as written. */
  method AddImmediateToAccumulator(op: Byte, d: Decoder) returns (text: string, err: Option<Error>)
    requires d.Valid()
    modifies d`pos
    ensures d.Valid()
    ensures Yields(AccumulatorAddAsWritten(op, d.bytes, old(d.pos)), text, err, d.pos)
  {
    var isWord := Bit3(op) == 1;
    var imm;
    imm, err := d.DecodeImmediate(AccumulatorName, isWord);
    if err.Some? {
      return "", err;
    }
    var regName := if isWord then "ax" else "al";
    if Int16(imm) < 0 {
      text := "add " + regName + ", " + NatToString(imm) + " ; or " + IntToString(Int16(imm)) + "\n";
    } else {
      text := "add " + regName + ", " + NatToString(imm) + "\n";
    }
    assert text == "add " + regName + ", " + NatToString(imm) + OrComment(imm) + "\n";
  }

  /**
   * The corrected reading: the two opcodes of the form, 0x04 for a byte and 0x05 for a word,
   * name `al` with one immediate byte and `ax` with two.
   */
  lemma AccumulatorAddCorrectedWidths(bytes: seq<Byte>, pos: nat)
    requires pos <= |bytes|
    ensures AccumulatorAddCorrected(0x04, bytes, pos).Done? ==>
      AccumulatorAddCorrected(0x04, bytes, pos).pos == pos + 1 &&
      AccumulatorAddCorrected(0x04, bytes, pos).value[..7] == "add al,"
    ensures AccumulatorAddCorrected(0x05, bytes, pos).Done? ==>
      AccumulatorAddCorrected(0x05, bytes, pos).pos == pos + 2 &&
      AccumulatorAddCorrected(0x05, bytes, pos).value[..7] == "add ax,"
  {
    assert Bit0(0x04) == 0 && Bit0(0x05) == 1;
    PrefixOfAdd(false, bytes, pos);
    PrefixOfAdd(true, bytes, pos);
  }

  /** The first seven characters of an accumulator ADD name the accumulator. */
  lemma PrefixOfAdd(isWord: bool, bytes: seq<Byte>, pos: nat)
    requires pos <= |bytes|
    ensures AccumulatorAdd(isWord, bytes, pos).Done? ==>
      AccumulatorAdd(isWord, bytes, pos).value[..7] == "add " + RegisterName(0, isWord) + ","
  {
    var o := AccumulatorAdd(isWord, bytes, pos);
    if o.Done? {
      var imm := ReadImmediate(AccumulatorName, bytes, pos, isWord).value;
      var head := "add " + RegisterName(0, isWord) + ", ";
      TakeOfAppend(head + NatToString(imm) + OrComment(imm), "\n", 7);
      TakeOfAppend(head + NatToString(imm), OrComment(imm), 7);
      TakeOfAppend(head, NatToString(imm), 7);
      assert head[..7] == "add " + RegisterName(0, isWord) + ",";
    }
  }

  /**
   * The code as written agrees with the corrected reading on the byte opcode 0x04 and never on
   * a successful decode of the word opcode 0x05, which it reads as a byte form.
   */
  lemma AccumulatorAddAsWrittenDiffers(bytes: seq<Byte>, pos: nat)
    requires pos <= |bytes|
    ensures AccumulatorAddAsWritten(0x04, bytes, pos) == AccumulatorAddCorrected(0x04, bytes, pos)
    ensures AccumulatorAddCorrected(0x05, bytes, pos).Done? ==>
      AccumulatorAddAsWritten(0x05, bytes, pos) != AccumulatorAddCorrected(0x05, bytes, pos)
  {
    assert Bit3(0x04) == 0 && Bit0(0x04) == 0;
    assert Bit3(0x05) == 0 && Bit0(0x05) == 1;
    if AccumulatorAddCorrected(0x05, bytes, pos).Done? {
      assert AccumulatorAddAsWritten(0x05, bytes, pos).pos == pos + 1;
    }
  }

  /** `add ax, 0x1234` (bytes 05 34 12): the code as written prints `add al, 52` and leaves 0x12 unread. */
  lemma AccumulatorAddCounterexample()
    ensures AccumulatorAddAsWritten(0x05, [0x34, 0x12], 0) == Done("add al, 52\n", 1)
    ensures AccumulatorAddCorrected(0x05, [0x34, 0x12], 0) == Done("add ax, 4660\n", 2)
  {
    assert Bit3(0x05) == 0 && Bit0(0x05) == 1;
    assert ReadImmediate(AccumulatorName, [0x34, 0x12], 0, false) == Done(0x34, 1);
    assert ReadImmediate(AccumulatorName, [0x34, 0x12], 0, true) == Done(4660, 2);
    CounterexampleNumerals();
    assert OrComment(52) == "" && OrComment(4660) == "";
    assert AccumulatorAdd(false, [0x34, 0x12], 0) == Done("add " + "al" + ", " + "52" + "" + "\n", 1);
    assert AccumulatorAdd(true, [0x34, 0x12], 0) == Done("add " + "ax" + ", " + "4660" + "" + "\n", 2);
    assert "add " + "al" + ", " + "52" + "" + "\n" == "add al, 52\n";
    assert "add " + "ax" + ", " + "4660" + "" + "\n" == "add ax, 4660\n";
  }

  /** The two numerals of the counterexample. */
  lemma CounterexampleNumerals()
    ensures NatToString(52) == "52" && NatToString(4660) == "4660"
  {
    assert NatToString(52) == NatToString(5) + "2" == "52";
    assert NatToString(4660) == NatToString(466) + "0";
    assert NatToString(466) == NatToString(46) + "6";
    assert NatToString(46) == NatToString(4) + "6" == "46";
  }
}
