// The first-match decode loops: `decode` of part1/main.go and `Decode` of
// part1/pkg/decoder/decoder.go. Both restart the cursor, read an opcode, run the first arm whose
// prefix matches and append its text, until the bytes run out or a builder fails. They differ in
// the builders of three arms and in what follows the five MOV arms.

module Dispatch {
  import opened Numeric
  import opened Outcomes
  import opened Engine
  import opened Forms
  import Move
  import MainEngine

  /** Which of the two engines: main.go's standalone one or the decoder package's. */
  datatype Snapshot = Standalone | Package

  /** The five MOV encodings the loop recognises, in the order its arms test them. */
  datatype MovForm = RegMemToReg | ImmediateToRegOrMem | ImmediateToReg | MemoryToAccumulator | AccumulatorToMemory

  /** The first arm whose opcode prefix matches. */
  function SelectMov(op: Byte): Option<MovForm>
  {
    if Pattern(op, 0x22) then Some(RegMemToReg)              // 100010
    else if Pattern(op, 0x63) then Some(ImmediateToRegOrMem) // 1100011
    else if Pattern(op, 0x0B) then Some(ImmediateToReg)      // 1011
    else if Pattern(op, 0x50) then Some(MemoryToAccumulator) // 1010000
    else if Pattern(op, 0x51) then Some(AccumulatorToMemory) // 1010001
    else None
  }

  /** The opcodes each arm takes, in both directions; every other opcode falls through to the next arm. */
  lemma SelectMovRanges(op: Byte)
    ensures SelectMov(op) == Some(RegMemToReg) <==> 0x88 <= op <= 0x8B
    ensures SelectMov(op) == Some(ImmediateToRegOrMem) <==> 0xC6 <= op <= 0xC7
    ensures SelectMov(op) == Some(ImmediateToReg) <==> 0xB0 <= op <= 0xBF
    ensures SelectMov(op) == Some(MemoryToAccumulator) <==> 0xA0 <= op <= 0xA1
    ensures SelectMov(op) == Some(AccumulatorToMemory) <==> 0xA2 <= op <= 0xA3
    ensures SelectMov(op).None? <==>
      !(0x88 <= op <= 0x8B || 0xC6 <= op <= 0xC7 || 0xB0 <= op <= 0xBF || 0xA0 <= op <= 0xA3)
  {
    Pow2Table();
    PatternRange(op, 0x22);
    PatternRange(op, 0x63);
    PatternRange(op, 0x0B);
    PatternRange(op, 0x50);
    PatternRange(op, 0x51);
  }


  /**
   * Where the loop ends on an opcode none of the MOV arms takes. main.go panics. The package
   * loop goes on to `pattern(operation, 0b000000)`, whose bit length comes from the logarithm of
   * zero; that arm is not modelled and the run stops there.
   */
  function Unmatched(snapshot: Snapshot, op: Byte): Stop
  {
    match snapshot
    case Standalone => Panicked(op)
    case Package => Unmodelled(op)
  }

  /** The builder an arm calls, on the bytes after the opcode. */
  function Step(snapshot: Snapshot, form: MovForm, op: Byte, bytes: seq<Byte>, pos: nat): (o: Outcome<string>)
    requires pos <= |bytes|
    ensures o.Done? ==> pos <= o.pos <= |bytes|
    ensures o.Fail? ==> o.pos <= |bytes|
  {
    match (snapshot, form)
    case (_, RegMemToReg) => RegMemWithReg("mov", Move.RegMemToRegName, op, bytes, pos)
    case (_, ImmediateToRegOrMem) => Move.ImmediateToRegOrMem(op, bytes, pos)
    case (Standalone, ImmediateToReg) => Move.ImmediateToReg(MainEngine.ImmediateToRegName, op, bytes, pos)
    case (Package, ImmediateToReg) => Move.ImmediateToReg("MOV: immediate to register", op, bytes, pos)
    case (Standalone, MemoryToAccumulator) => MainEngine.MemoryToAx(op, bytes, pos)
    case (Package, MemoryToAccumulator) => Move.MemoryToAccumulator("MOV: memory to accumulator", op, bytes, pos)
    case (Standalone, AccumulatorToMemory) => MainEngine.AxToMemory(op, bytes, pos)
    case (Package, AccumulatorToMemory) => Move.AccumulatorToMemory("MOV: accumulator to address", op, bytes, pos)
  }

  /** The loop from cursor `pos`: builder texts in order until the bytes run out, an error or an unmatched opcode. */
  function Run(snapshot: Snapshot, bytes: seq<Byte>, pos: nat): Trace
    requires pos <= |bytes|
    decreases |bytes| - pos, 1, 0
  {
    if pos == |bytes| then Trace("", Exhausted, pos) else Turn(snapshot, bytes, pos)
  }

  /** A turn of the loop at an opcode: the arm it selects, or the end for an unmatched opcode. */
  function Turn(snapshot: Snapshot, bytes: seq<Byte>, pos: nat): Trace
    requires pos < |bytes|
    decreases |bytes| - pos, 0, 1
  {
    match SelectMov(bytes[pos])
    case None => Trace("", Unmatched(snapshot, bytes[pos]), pos + 1)
    case Some(form) => Arm(snapshot, form, bytes, pos)
  }

  /** The arm `form` at the opcode `bytes[pos]`: its builder's text, followed by the rest of the run. */
  function Arm(snapshot: Snapshot, form: MovForm, bytes: seq<Byte>, pos: nat): Trace
    requires pos < |bytes|
    decreases |bytes| - pos, 0, 0
  {
    match Step(snapshot, form, bytes[pos], bytes, pos + 1)
    case Fail(e, p) => Trace("", Stopped(e), p)
    case Done(text, p) => Then(text, Run(snapshot, bytes, p))
  }

  /** One turn of the loop at an opcode an arm takes, stated on the builder's `(text, error)` pair. */
  lemma RunStep(snapshot: Snapshot, bytes: seq<Byte>, pos: nat, form: MovForm, text: string, err: Option<Error>, after: nat)
    requires pos < |bytes| && SelectMov(bytes[pos]) == Some(form)
    requires Yields(Step(snapshot, form, bytes[pos], bytes, pos + 1), text, err, after)
    ensures after <= |bytes|
    ensures err.None? ==> pos < after && Run(snapshot, bytes, pos) == Then(text, Run(snapshot, bytes, after))
    ensures err.Some? ==> Run(snapshot, bytes, pos) == Trace("", Stopped(err.value), after)
  {
    assert Run(snapshot, bytes, pos) == Turn(snapshot, bytes, pos) == Arm(snapshot, form, bytes, pos);
  }

  /**
   * The loop ends normally only with the cursor at the end of the bytes; it never passes the end;
   * and it ends on an unmatched opcode only just after reading one.
   */
  lemma {:induction false} RunEnds(snapshot: Snapshot, bytes: seq<Byte>, pos: nat)
    requires pos <= |bytes|
    ensures Run(snapshot, bytes, pos).pos <= |bytes|
    ensures Run(snapshot, bytes, pos).stop.Exhausted? ==> Run(snapshot, bytes, pos).pos == |bytes|
    ensures (Run(snapshot, bytes, pos).stop.Panicked? || Run(snapshot, bytes, pos).stop.Unmodelled?) ==>
      Run(snapshot, bytes, pos).pos > pos && SelectMov(bytes[Run(snapshot, bytes, pos).pos - 1]).None?
    decreases |bytes| - pos, 1
  {
    if pos < |bytes| {
      assert Run(snapshot, bytes, pos) == Turn(snapshot, bytes, pos);
      match SelectMov(bytes[pos])
      case None =>
      case Some(form) =>
        assert Turn(snapshot, bytes, pos) == Arm(snapshot, form, bytes, pos);
        ArmEnds(snapshot, form, bytes, pos);
    }
  }

  /** RunEnds for the turn at an opcode an arm takes. */
  lemma {:induction false} ArmEnds(snapshot: Snapshot, form: MovForm, bytes: seq<Byte>, pos: nat)
    requires pos < |bytes| && SelectMov(bytes[pos]) == Some(form)
    ensures Arm(snapshot, form, bytes, pos).pos <= |bytes|
    ensures Arm(snapshot, form, bytes, pos).stop.Exhausted? ==> Arm(snapshot, form, bytes, pos).pos == |bytes|
    ensures (Arm(snapshot, form, bytes, pos).stop.Panicked? || Arm(snapshot, form, bytes, pos).stop.Unmodelled?) ==>
      Arm(snapshot, form, bytes, pos).pos > pos && SelectMov(bytes[Arm(snapshot, form, bytes, pos).pos - 1]).None?
    decreases |bytes| - pos, 0
  {
    var s := Step(snapshot, form, bytes[pos], bytes, pos + 1);
    if s.Done? {
      RunEnds(snapshot, bytes, s.pos);
    }
  }

  /** The arm of the loop that `form` selects. */
  method Build(snapshot: Snapshot, form: MovForm, op: Byte, d: Decoder) returns (text: string, err: Option<Error>)
    requires d.Valid()
    modifies d`pos
    ensures d.Valid()
    ensures Yields(Step(snapshot, form, op, d.bytes, old(d.pos)), text, err, d.pos)
  {
    match (snapshot, form) {
      case (_, RegMemToReg) => text, err := Move.MoveRegMemToReg(op, d);
      case (_, ImmediateToRegOrMem) => text, err := Move.MoveImmediateToRegOrMem(op, d);
      case (Standalone, ImmediateToReg) => text, err := MainEngine.MoveImmediateToReg(op, d);
      case (Package, ImmediateToReg) => text, err := Move.MoveImmediateToReg(op, d);
      case (Standalone, MemoryToAccumulator) => text, err := MainEngine.MoveMemoryToAccumulator(op, d);
      case (Package, MemoryToAccumulator) => text, err := Move.MoveMemoryToAccumulator(op, d);
      case (Standalone, AccumulatorToMemory) => text, err := MainEngine.MoveAccumulatorToMemory(op, d);
      case (Package, AccumulatorToMemory) => text, err := Move.MoveAccumulatorToMemory(op, d);
    }
  }

  /**
   * One turn of the loop: read the opcode and run the arm it selects. `stop` is None when the
   * loop goes on, and otherwise says why it ends.
   */
  method DecodeOne(snapshot: Snapshot, d: Decoder) returns (text: string, stop: Option<Stop>)
    requires d.Valid()
    modifies d`pos
    ensures d.Valid()
    ensures stop.None? ==> old(d.pos) < d.pos && Run(snapshot, d.bytes, old(d.pos)) == Then(text, Run(snapshot, d.bytes, d.pos))
    ensures stop.Some? ==> Run(snapshot, d.bytes, old(d.pos)) == Trace("", stop.value, d.pos)
  {
    ghost var at := d.pos;
    var op, ok := d.Next();
    if !ok {
      return "", Some(Exhausted);
    }
    var form := SelectMov(op);
    if form.None? {
      assert Run(snapshot, d.bytes, at) == Turn(snapshot, d.bytes, at);
      return "", Some(Unmatched(snapshot, op));
    }
    var err;
    text, err := Build(snapshot, form.value, op, d);
    RunStep(snapshot, d.bytes, at, form.value, text, err, d.pos);
    if err.Some? {
      return "", Some(Stopped(err.value));
    }
    stop := None;
  }

  /**
   * The decode loop: restarts the cursor, appends each builder's text to `decoded`, and returns
   * the whole of `decoded` when the bytes run out; when a builder fails (or main.go panics) it
   * returns nothing, and the text appended so far stays in `decoded`.
   */
  method Decode(snapshot: Snapshot, d: Decoder) returns (output: string, stop: Stop)
    requires d.Valid()
    modifies d`pos, d`decoded
    ensures d.Valid()
    ensures var t := Run(snapshot, d.bytes, 0);
      stop == t.stop && d.pos == t.pos && d.decoded == old(d.decoded) + t.text &&
      output == (if t.stop.Exhausted? then d.decoded else "")
  {
    d.pos := 0;
    ghost var done := "";
    ghost var whole := Run(snapshot, d.bytes, 0);
    while true
      invariant d.Valid()
      invariant d.decoded == old(d.decoded) + done
      invariant whole == Then(done, Run(snapshot, d.bytes, d.pos))
      decreases |d.bytes| - d.pos
    {
      var text, next := DecodeOne(snapshot, d);
      if next.Some? {
        assert done + "" == done;
        assert whole == Trace(done, next.value, d.pos);
        stop := next.value;
        output := if stop.Exhausted? then d.decoded else "";
        return;
      }
      ThenThen(done, text, Run(snapshot, d.bytes, d.pos));
      assert (old(d.decoded) + done) + text == old(d.decoded) + (done + text);
      d.decoded := d.decoded + text;
      done := done + text;
    }
  }
}
