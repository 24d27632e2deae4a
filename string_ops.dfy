// The string instructions of part1/pkg/decoder/string.go: the REP prefix, which looks at the
// opcode after it without consuming it, and the five string operations, suffixed by width.

module StringOps {
  import opened Numeric
  import opened Outcomes
  import opened Engine

  /** The string families, keyed by the top seven bits of the opcode `[xxxxxxx|w]`. */
  datatype StringOp = Movs | Cmps | Scas | Lods | Stos
  {
    function Mnemonic(): string
    {
      match this
      case Movs => "movs"
      case Cmps => "cmps"
      case Scas => "scas"
      case Lods => "lods"
      case Stos => "stos"
    }

    /** The opcode's top seven bits. */
    function Family(): nat
    {
      match this
      case Movs => 0x52
      case Cmps => 0x53
      case Scas => 0x57
      case Lods => 0x56
      case Stos => 0x55
    }

    /** CMPS and SCAS compare, so their repetition also tests ZF. */
    predicate Compares()
    {
      this == Cmps || this == Scas
    }
  }

  /** The string family of an opcode, if its top seven bits name one. */
  function StringOpOf(b: Byte): (s: Option<StringOp>)
    ensures s.Some? ==> s.value.Family() == b / 2
    ensures s.None? ==> b / 2 !in {0x52, 0x53, 0x57, 0x56, 0x55}
  {
    var top := b / 2;
    if top == 0x52 then Some(Movs)
    else if top == 0x53 then Some(Cmps)
    else if top == 0x57 then Some(Scas)
    else if top == 0x56 then Some(Lods)
    else if top == 0x55 then Some(Stos)
    else None
  }

  /** Both opcodes of a family, byte and word, are recognised as that family. */
  lemma StringOpOfFamily(s: StringOp, w: Bit)
    ensures StringOpOf((2 * s.Family() + w) as Byte) == Some(s)
  {
  }

  /**
   * `repeatPrefix` `[1111001|z]`: the mnemonic the prefix prints, chosen by peeking at the next
   * opcode. `repz`/`repnz` (by Z = opcode bit 0, LoopWhileZero = 1) before CMPS and SCAS; `rep`
   * before the other string operations, before any other byte and at the end of the input.
   */
  function RepeatPrefix(op: Byte, d: Decoder): (r: string)
    reads d
    ensures r == "repz" <==>
      d.PeekNext().Some? && StringOpOf(d.PeekNext().value).Some? && StringOpOf(d.PeekNext().value).value.Compares() &&
      Bit0(op) == 1
    ensures r == "repnz" <==>
      d.PeekNext().Some? && StringOpOf(d.PeekNext().value).Some? && StringOpOf(d.PeekNext().value).value.Compares() &&
      Bit0(op) == 0
    ensures r != "repz" && r != "repnz" ==> r == "rep"
  {
    match d.PeekNext()
    case None => "rep"
    case Some(next) =>
      var top := next / 2;
      if top == 0x53 || top == 0x57 then
        if Bit0(op) == 1 then "repz" else "repnz"
      else
        "rep"
  }

  /** `movs`, `cmps`, `scas`, `lods`, `stos`: the mnemonic suffixed `w` for W = 1 and `b` for W = 0. */
  function StringInstruction(s: StringOp, op: Byte): (text: string)
    ensures |text| == 6 && text[..4] == s.Mnemonic() && text[5] == '\n'
  {
    s.Mnemonic() + (if Bit0(op) == 1 then "w" else "b") + "\n"
  }

  /** The text of a string instruction names its family and its width and nothing else. */
  lemma StringInstructionInjective(s: StringOp, a: Byte, t: StringOp, b: Byte)
    ensures StringInstruction(s, a) == StringInstruction(t, b) <==> s == t && Bit0(a) == Bit0(b)
  {
    var x, y := StringInstruction(s, a), StringInstruction(t, b);
    if x == y {
      assert x[..4] == y[..4];
      assert s.Mnemonic() == t.Mnemonic();
      assert x[4] == y[4];
      assert x[4] == (if Bit0(a) == 1 then 'w' else 'b');
      assert y[4] == (if Bit0(b) == 1 then 'w' else 'b');
    }
  }
}
