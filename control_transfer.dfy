// The conditional jumps of part1/pkg/decoder/control-transfer.go: a signed one-byte offset
// relative to the cursor after it, rendered as a label that the decoder records. The jump
// mnemonic tables `JumpNames` and `JumpAlternativeNames` are not part of this model; they are
// parameters, looked up as Go maps are (a missing key reads as the empty string).

module ControlTransfer {
  import opened Numeric
  import opened Decimal
  import opened Outcomes
  import opened Engine

  /** `createLabelName`: `label__<pos>`. */
  function LabelName(pos: int): string
  {
    "label__" + IntToString(pos)
  }

  /** A label names one position: equal positions give equal names and distinct positions distinct ones. */
  lemma LabelNameInjective(a: int, b: int)
    ensures LabelName(a) == LabelName(b) <==> a == b
  {
    if LabelName(a) == LabelName(b) {
      assert IntToString(a) == LabelName(a)[7..];
      assert IntToString(b) == LabelName(b)[7..];
      IntToStringInjective(a, b);
    }
  }

  /** `JumpNames[operation]`, the empty string for an opcode the table lacks. */
  function JumpName(names: map<Byte, string>, op: Byte): string
  {
    if op in names then names[op] else ""
  }

  /** `; alt` for an opcode with an alternative name, nothing otherwise. */
  function AlternativeComment(alternatives: map<Byte, string>, op: Byte): (c: string)
    ensures c == "" <==> op !in alternatives
  {
    if op in alternatives then "; " + alternatives[op] else ""
  }

  /**
   * `jumpConditionally`: the text and the label target, or the error for a missing offset byte.
   * The target is the position after the offset byte plus the offset as an int8.
   */
  function Jump(names: map<Byte, string>, alternatives: map<Byte, string>, op: Byte, bytes: seq<Byte>, pos: nat)
    : (o: Outcome<(string, int)>)
    requires pos <= |bytes|
    ensures o.Fail? <==> pos == |bytes|
    ensures o.Fail? ==> o == Fail(Missing(JumpName(names, op), JumpOffset), pos)
    ensures o.Done? ==> o.pos == pos + 1 && pos + 1 - 128 <= o.value.1 < pos + 1 + 128
    ensures o.Done? ==> (o.value.1 < pos + 1 <==> bytes[pos] >= 128)
    ensures o.Done? && op !in alternatives ==>
      o.value.0 == JumpName(names, op) + " " + LabelName(o.value.1) + "\n"
    ensures o.Done? && op in alternatives ==>
      o.value.0 == JumpName(names, op) + " " + LabelName(o.value.1) + " ; " + alternatives[op] + "\n"
  {
    var name := JumpName(names, op);
    var comment := AlternativeComment(alternatives, op);
    if pos == |bytes| then
      Fail(Missing(name, JumpOffset), pos)
    else
      var target := pos + 1 + Int8(bytes[pos]);
      var labelName := LabelName(target);
      if comment == "" then Done((name + " " + labelName + "\n", target), pos + 1)
      else Done((name + " " + labelName + " " + comment + "\n", target), pos + 1)
  }

  /** `jumpConditionally`: reads the offset and records the label of its target in `d.labels`. */
  method JumpConditionally(names: map<Byte, string>, alternatives: map<Byte, string>, op: Byte, d: Decoder)
    returns (text: string, err: Option<Error>)
    requires d.Valid()
    modifies d`pos, d`labels
    ensures d.Valid()
    ensures var o := Jump(names, alternatives, op, d.bytes, old(d.pos));
      d.pos == o.pos &&
      match o
      case Fail(e, _) => err == Some(e) && text == "" && d.labels == old(d.labels)
      case Done(v, _) => err == None && text == v.0 && d.labels == old(d.labels)[v.1 := LabelName(v.1)]
  {
    var name := JumpName(names, op);
    var comment := "";
    if op in alternatives {
      comment := "; " + alternatives[op];
    }
    var instructionPointer, ok := d.Next();
    if !ok {
      return "", Some(Missing(name, JumpOffset));
    }
    var offset := Int8(instructionPointer);
    var labelLocation := d.pos + offset;
    var labelName := LabelName(labelLocation);
    d.labels := d.labels[labelLocation := labelName];
    if comment == "" {
      text := name + " " + labelName + "\n";
    } else {
      text := name + " " + labelName + " " + comment + "\n";
    }
    err := None;
  }

  /**
   * Two jumps read at the same position record the same label exactly when their offset bytes
   * agree: the label determines the offset, and the offset the label.
   */
  lemma JumpLabelsIdentifyOffsets(names: map<Byte, string>, alternatives: map<Byte, string>, op: Byte,
                                  x: seq<Byte>, y: seq<Byte>, pos: nat)
    requires pos < |x| && pos < |y|
    ensures (LabelName(Jump(names, alternatives, op, x, pos).value.1) ==
             LabelName(Jump(names, alternatives, op, y, pos).value.1)) <==> x[pos] == y[pos]
  {
    var s := Jump(names, alternatives, op, x, pos).value.1;
    var t := Jump(names, alternatives, op, y, pos).value.1;
    LabelNameInjective(s, t);
    assert s == pos + 1 + Int8(x[pos]) && t == pos + 1 + Int8(y[pos]);
  }
}
