// The builders of the standalone first engine in part1/main.go that differ from the Move ones.
// Its cursor is the one of Engine.Decoder (main.go declares the same `bytes`/`pos`/`decoded`
// struct and the same `next`); its `moveRegMemToReg` and `moveImmediateToRegOrMem` are the Move
// builders, message for message. Its loop is Dispatch.Decode on the Standalone snapshot.

module MainEngine {
  import opened Numeric
  import opened Decimal
  import opened Outcomes
  import opened Engine
  import opened Forms
  import Move

  const ImmediateToRegName := "immediate to register"
  const MemoryToAccumulatorName := "memory to accumulator"
  const AccumulatorToMemoryName := "accumulator to address"

  /** `[1010000w] [addr-lo] [addr-hi]`: W chooses the address width, but the register printed is always `ax`. */
  function MemoryToAx(op: Byte, bytes: seq<Byte>, pos: nat): (o: Outcome<string>)
    requires pos <= |bytes|
    ensures var r := ReadAddress(MemoryToAccumulatorName, bytes, pos, Bit0(op) == 1);
      o.pos == r.pos && (o.Fail? <==> r.Fail?) && (o.Fail? ==> o.error == r.error) &&
      (o.Done? ==> o.value == "mov ax, [" + NatToString(r.value) + "]\n")
  {
    match ReadAddress(MemoryToAccumulatorName, bytes, pos, Bit0(op) == 1)
    case Fail(e, p) => Fail(e, p)
    case Done(address, p) => Done("mov ax, [" + NatToString(address) + "]\n", p)
  }

  /** `[1010001w] [addr-lo] [addr-hi]`: W chooses the address width, but the register printed is always `ax`. */
  function AxToMemory(op: Byte, bytes: seq<Byte>, pos: nat): (o: Outcome<string>)
    requires pos <= |bytes|
    ensures var r := ReadAddress(AccumulatorToMemoryName, bytes, pos, Bit0(op) == 1);
      o.pos == r.pos && (o.Fail? <==> r.Fail?) && (o.Fail? ==> o.error == r.error) &&
      (o.Done? ==> o.value == "mov [" + NatToString(r.value) + "], ax\n")
  {
    match ReadAddress(AccumulatorToMemoryName, bytes, pos, Bit0(op) == 1)
    case Fail(e, p) => Fail(e, p)
    case Done(address, p) => Done("mov [" + NatToString(address) + "], ax\n", p)
  }

  /**
   * The accumulator forms of this engine print what the later package prints exactly when
   * W=1; for W=0 the later one names `al` where this one names `ax`. Both read the same bytes.
   */
  lemma AccumulatorFormsAgreeOnWords(op: Byte, bytes: seq<Byte>, pos: nat)
    requires pos <= |bytes|
    ensures MemoryToAx(op, bytes, pos).pos == Move.MemoryToAccumulator("MOV: memory to accumulator", op, bytes, pos).pos
    ensures AxToMemory(op, bytes, pos).pos == Move.AccumulatorToMemory("MOV: accumulator to address", op, bytes, pos).pos
    ensures MemoryToAx(op, bytes, pos).Done? ==>
      (MemoryToAx(op, bytes, pos).value == Move.MemoryToAccumulator("MOV: memory to accumulator", op, bytes, pos).value
       <==> Bit0(op) == 1)
    ensures AxToMemory(op, bytes, pos).Done? ==>
      (AxToMemory(op, bytes, pos).value == Move.AccumulatorToMemory("MOV: accumulator to address", op, bytes, pos).value
       <==> Bit0(op) == 1)
  {
    var isWord := Bit0(op) == 1;
    var a := ReadAddress(MemoryToAccumulatorName, bytes, pos, isWord);
    var b := ReadAddress("MOV: memory to accumulator", bytes, pos, isWord);
    if a.Done? {
      assert b.Done? && b.value == a.value;
      var n := NatToString(a.value);
      if !isWord {
        var mine := "mov ax, [" + n + "]\n";
        var later := "mov al, [" + n + "]\n";
        assert mine[5] != later[5];
      }
      var c := ReadAddress(AccumulatorToMemoryName, bytes, pos, isWord);
      var e := ReadAddress("MOV: accumulator to address", bytes, pos, isWord);
      assert c.Done? && e.Done? && c.value == e.value == a.value;
      if !isWord {
        var mine := "mov [" + n + "], ax\n";
        var later := "mov [" + n + "], al\n";
        assert |mine| == |later|;
        assert mine[|mine| - 2] != later[|later| - 2];
      }
    }
  }

  /** main.go's `moveImmediateToReg`: as the later one, under its own instruction name. */
  method MoveImmediateToReg(op: Byte, d: Decoder) returns (text: string, err: Option<Error>)
    requires d.Valid()
    modifies d`pos
    ensures d.Valid()
    ensures Yields(Move.ImmediateToReg(ImmediateToRegName, op, d.bytes, old(d.pos)), text, err, d.pos)
  {
    var isWord := Bit3(op) == 1;
    var regName := RegisterName(Low3(op), isWord);
    var imm;
    imm, err := d.DecodeImmediate(ImmediateToRegName, isWord);
    if err.Some? {
      return "", err;
    }
    if Int16(imm) < 0 {
      text := "mov " + regName + ", " + NatToString(imm) + " ; or " + IntToString(Int16(imm)) + "\n";
    } else {
      text := "mov " + regName + ", " + NatToString(imm) + "\n";
    }
  }

  /** main.go's `moveMemoryToAccumulator`. */
  method MoveMemoryToAccumulator(op: Byte, d: Decoder) returns (text: string, err: Option<Error>)
    requires d.Valid()
    modifies d`pos
    ensures d.Valid()
    ensures Yields(MemoryToAx(op, d.bytes, old(d.pos)), text, err, d.pos)
  {
    var address;
    address, err := d.DecodeAddress(MemoryToAccumulatorName, Bit0(op) == 1);
    if err.Some? {
      return "", err;
    }
    text := "mov ax, [" + NatToString(address) + "]\n";
  }

  /** main.go's `moveAccumulatorToMemory`. */
  method MoveAccumulatorToMemory(op: Byte, d: Decoder) returns (text: string, err: Option<Error>)
    requires d.Valid()
    modifies d`pos
    ensures d.Valid()
    ensures Yields(AxToMemory(op, d.bytes, old(d.pos)), text, err, d.pos)
  {
    var address;
    address, err := d.DecodeAddress(AccumulatorToMemoryName, Bit0(op) == 1);
    if err.Some? {
      return "", err;
    }
    text := "mov [" + NatToString(address) + "], ax\n";
  }
}
