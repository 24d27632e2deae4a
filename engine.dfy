// The shared core of the 8086 decoder (part1/pkg/decoder/decoder.go): the byte cursor,
// the opcode-prefix matcher, the register and effective-address tables, the operand
// resolver and the little-endian field readers.

module Engine {
  import opened Numeric
  import opened Decimal
  import opened Outcomes

  // D bit: which operand the REG field names.
  const RegIsSource: Bit := 0
  const RegIsDestination: Bit := 1

  // MOD field: how many displacement bytes follow, or that R/M names a register.
  const MemoryModeNoDisplacement: Field2 := 0
  const MemoryMode8Displacement: Field2 := 1
  const MemoryMode16Displacement: Field2 := 2
  const RegisterMode: Field2 := 3

  /** The R/M value that, under MOD=00, stands for a 16-bit direct address instead of `bp`. */
  const DirectAddressRm: Field3 := 6

  /** REG/R-M register names for W=0. */
  const ByteRegisters: seq<string> := ["al", "cl", "dl", "bl", "ah", "ch", "dh", "bh"]

  /** REG/R-M register names for W=1. */
  const WordRegisters: seq<string> := ["ax", "cx", "dx", "bx", "sp", "bp", "si", "di"]

  /** Effective-address equations by R/M (Table 4-10 of the 8086 Family User's Manual). */
  const EffectiveAddressEquations: seq<string> :=
    ["bx + si", "bx + di", "bp + si", "bp + di", "si", "di", "bp", "bx"]

  /** The register a REG or R/M field names under the W bit. */
  function RegisterName(r: Field3, isWord: bool): (name: string)
    ensures name in (if isWord then WordRegisters else ByteRegisters)
  {
    if isWord then WordRegisters[r] else ByteRegisters[r]
  }

  /** A register name determines both the field value and the width it was read with. */
  lemma RegisterNameInjective(a: Field3, wa: bool, b: Field3, wb: bool)
    requires RegisterName(a, wa) == RegisterName(b, wb)
    ensures a == b && wa == wb
  {
    var x := RegisterName(a, wa);
    assert x[0] == RegisterName(b, wb)[0] && x[1] == RegisterName(b, wb)[1];
  }

  /** `parseOperand`/`decodeOperand`: the MOD, REG and R/M fields of `[mod|reg|r/m]`. */
  function ParseOperand(operand: Byte): (f: (Field2, Field3, Field3))
    ensures f.0 * 64 + f.1 * 8 + f.2 == operand
  {
    FieldsReassemble(operand);
    (operand / 64, (operand / 8) % 8, operand % 8)
  }

  /** Proof step for ParseOperand: the 2-3-3 bit fields of a byte put back together give the byte. */
  lemma FieldsReassemble(operand: Byte)
    ensures operand / 64 < 4
    ensures (operand / 64) * 64 + ((operand / 8) % 8) * 8 + operand % 8 == operand
  {
    var high, low := operand / 8, operand % 8;
    assert operand == 8 * high + low;
    var mod, reg := high / 8, high % 8;
    assert high == 8 * mod + reg;
    assert operand == 64 * mod + 8 * reg + low;
    assert operand / 64 == mod;
  }

  /** The `[mod|reg|r/m]` byte with the given fields: the inverse of ParseOperand. */
  function OperandByte(mod: Field2, reg: Field3, rm: Field3): (b: Byte)
    ensures ParseOperand(b) == (mod, reg, rm)
  {
    mod * 64 + reg * 8 + rm
  }

  function Pow2(k: nat): (r: nat)
    ensures r >= 1
  {
    if k == 0 then 1 else 2 * Pow2(k - 1)
  }

  lemma Pow2Table()
    ensures Pow2(0) == 1 && Pow2(1) == 2 && Pow2(2) == 4 && Pow2(3) == 8 && Pow2(4) == 16
    ensures Pow2(5) == 32 && Pow2(6) == 64 && Pow2(7) == 128 && Pow2(8) == 256
  {
  }

  /** floor(log2 p) + 1: the number of significant bits of a non-zero byte. */
  function BitLength(p: Byte): (k: nat)
    requires p > 0
    ensures 1 <= k <= 8
    ensures Pow2(k - 1) <= p < Pow2(k)
  {
    Pow2Table();
    if p >= 128 then 8
    else if p >= 64 then 7
    else if p >= 32 then 6
    else if p >= 16 then 5
    else if p >= 8 then 4
    else if p >= 4 then 3
    else if p >= 2 then 2
    else 1
  }

  /** `pattern(b, p)`: b shifted right by 8 - BitLength(p) equals p. */
  function Pattern(b: Byte, p: Byte): bool
    requires p > 0
  {
    b / Pow2(8 - BitLength(p)) == p
  }

  /** Proof step for DivisionRange: multiplying by a positive factor keeps the order. */
  lemma MultiplyMonotone(a: int, b: int, m: int)
    requires a <= b && m > 0
    ensures a * m <= b * m
  {
    var k := b - a;
    assert b * m == a * m + k * m;
  }

  /** Proof step for PatternRange: the quotient b / m is q exactly when b lies in [q * m, q * m + m). */
  lemma DivisionRange(b: int, m: int, q: int)
    requires m > 0
    ensures b / m == q <==> q * m <= b < q * m + m
  {
    var d := b / m;
    var r := b % m;
    assert b == d * m + r && 0 <= r < m;
    assert (d + 1) * m == d * m + m;
    assert (q + 1) * m == q * m + m;
    if d < q {
      MultiplyMonotone(d + 1, q, m);
    } else if d > q {
      MultiplyMonotone(q + 1, d, m);
    }
  }

  /**
   * `pattern(b, p)` holds exactly for the bytes whose top BitLength(p) bits spell p, that is
   * for the 2^(8 - BitLength(p)) bytes from p * 2^(8 - BitLength(p)) on.
   */
  lemma PatternRange(b: Byte, p: Byte)
    requires p > 0
    ensures Pattern(b, p) <==> p * Pow2(8 - BitLength(p)) <= b < (p + 1) * Pow2(8 - BitLength(p))
  {
    DivisionRange(b, Pow2(8 - BitLength(p)), p);
  }

  /**
   * Leading zeros of a pattern are not matched: 0b0000010 has two significant bits, so it
   * tests only that the top two bits are 10 and accepts 0b10000000 through 0b10111111.
   */
  lemma PatternIgnoresLeadingZeros(b: Byte)
    ensures Pattern(b, 0x02) <==> 0x80 <= b <= 0xBF
  {
    Pow2Table();
    PatternRange(b, 0x02);
  }

  /** How many displacement bytes follow `[mod|reg|r/m]`. */
  function DisplacementLength(mod: Field2, rm: Field3): (n: nat)
    ensures n <= 2
  {
    if mod == MemoryModeNoDisplacement then (if rm == DirectAddressRm then 2 else 0)
    else if mod == MemoryMode8Displacement then 1
    else if mod == MemoryMode16Displacement then 2
    else 0
  }

  /** `[equation - m]` for a negative displacement, where m is Go's `^signed + 1`; `[equation + d]` otherwise. */
  function Displaced(equation: string, signed: int, negated: int, unsigned: nat): string
  {
    "[" + equation + (if signed < 0 then " - " + IntToString(negated) else " + " + NatToString(unsigned)) + "]"
  }

  /** The signed displacement d after an equation, written as NASM reads it: `+ d`, or `- |d|`. */
  function SignedSuffix(d: int): string
  {
    if d >= 0 then " + " + NatToString(d) else " - " + NatToString(-d)
  }

  /**
   * The R/M side of `[mod|reg|r/m]` read at `pos`: a register name for MOD=11, otherwise a
   * bracketed memory address built from the equation table and the displacement bytes.
   */
  function RmOperand(name: string, bytes: seq<Byte>, pos: nat, mod: Field2, rm: Field3, isWord: bool): (o: Outcome<string>)
    requires pos <= |bytes|
    ensures o.Done? <==> pos + DisplacementLength(mod, rm) <= |bytes|
    ensures o.Done? ==> o.pos == pos + DisplacementLength(mod, rm)
    ensures o.Fail? ==> o.pos == |bytes| && o.error.Missing? && o.error.instruction == name
    ensures mod == RegisterMode ==> o == Done(RegisterName(rm, isWord), pos)
    ensures mod == MemoryModeNoDisplacement && rm != DirectAddressRm ==>
      o == Done("[" + EffectiveAddressEquations[rm] + "]", pos)
  {
    if mod == RegisterMode then
      Done(RegisterName(rm, isWord), pos)
    else if mod == MemoryModeNoDisplacement then
      if rm != DirectAddressRm then
        Done("[" + EffectiveAddressEquations[rm] + "]", pos)
      else if pos == |bytes| then
        Fail(Missing(name, DirectAddressLow), pos)
      else if pos + 1 == |bytes| then
        Fail(Missing(name, DirectAddressHigh), pos + 1)
      else
        Done("[" + NatToString(LittleEndian(bytes[pos], bytes[pos + 1])) + "]", pos + 2)
    else if mod == MemoryMode8Displacement then
      if pos == |bytes| then
        Fail(Missing(name, Displacement), pos)
      else
        var signed := Int8(bytes[pos]);
        Done(Displaced(EffectiveAddressEquations[rm], signed, Negate8(signed), bytes[pos]), pos + 1)
    else
      if pos == |bytes| then
        Fail(Missing(name, DisplacementLow), pos)
      else if pos + 1 == |bytes| then
        Fail(Missing(name, DisplacementHigh), pos + 1)
      else
        var value := LittleEndian(bytes[pos], bytes[pos + 1]);
        var signed := Int16(value);
        Done(Displaced(EffectiveAddressEquations[rm], signed, Negate16(signed), value), pos + 2)
  }

  /** MOD=00 with R/M=110 is the unsigned little-endian direct address alone, with no register equation. */
  lemma DirectAddressText(name: string, bytes: seq<Byte>, pos: nat, isWord: bool)
    requires pos + 2 <= |bytes|
    ensures RmOperand(name, bytes, pos, MemoryModeNoDisplacement, DirectAddressRm, isWord).value ==
      "[" + NatToString(bytes[pos] as int + 256 * bytes[pos + 1] as int) + "]"
  {
  }

  /**
   * MOD=01 adds the int8 displacement to the equation as `+ d` or `- |d|`; Go's `^signed + 1`
   * leaves -128 negative, which renders `- -128`.
   */
  lemma Displacement8Text(name: string, bytes: seq<Byte>, pos: nat, rm: Field3, isWord: bool)
    requires pos + 1 <= |bytes|
    ensures bytes[pos] == 0x80 ==>
      RmOperand(name, bytes, pos, MemoryMode8Displacement, rm, isWord).value ==
      "[" + EffectiveAddressEquations[rm] + " - -128]"
    ensures bytes[pos] != 0x80 ==>
      RmOperand(name, bytes, pos, MemoryMode8Displacement, rm, isWord).value ==
      "[" + EffectiveAddressEquations[rm] + SignedSuffix(Int8(bytes[pos])) + "]"
  {
    var s := Int8(bytes[pos]);
    var eq := EffectiveAddressEquations[rm];
    var suffix := if s < 0 then " - " + IntToString(Negate8(s)) else " + " + NatToString(bytes[pos]);
    assert RmOperand(name, bytes, pos, MemoryMode8Displacement, rm, isWord).value == "[" + eq + suffix + "]";
    if bytes[pos] == 0x80 {
      assert NatToString(128) == "128";
      assert suffix == " - -128";
    } else {
      if s < 0 {
        assert IntToString(Negate8(s)) == NatToString(-s);
      }
      assert suffix == SignedSuffix(s);
    }
  }

  /**
   * MOD=10 adds the int16 displacement to the equation as `+ d` or `- |d|`; Go's `^signed + 1`
   * leaves -32768 negative, which renders `- -32768`.
   */
  lemma Displacement16Text(name: string, bytes: seq<Byte>, pos: nat, rm: Field3, isWord: bool)
    requires pos + 2 <= |bytes|
    ensures LittleEndian(bytes[pos], bytes[pos + 1]) == 0x8000 ==>
      RmOperand(name, bytes, pos, MemoryMode16Displacement, rm, isWord).value ==
      "[" + EffectiveAddressEquations[rm] + " - -32768]"
    ensures LittleEndian(bytes[pos], bytes[pos + 1]) != 0x8000 ==>
      RmOperand(name, bytes, pos, MemoryMode16Displacement, rm, isWord).value ==
      "[" + EffectiveAddressEquations[rm] + SignedSuffix(Int16(LittleEndian(bytes[pos], bytes[pos + 1]))) + "]"
  {
    var v := LittleEndian(bytes[pos], bytes[pos + 1]);
    if v == 0x8000 {
      Displacement16Wraps(name, bytes, pos, rm, isWord);
    } else {
      Displacement16Signed(name, bytes, pos, rm, isWord);
    }
  }

  /** Displacement16Text for 0x8000, whose negation stays -32768. */
  lemma Displacement16Wraps(name: string, bytes: seq<Byte>, pos: nat, rm: Field3, isWord: bool)
    requires pos + 2 <= |bytes| && LittleEndian(bytes[pos], bytes[pos + 1]) == 0x8000
    ensures RmOperand(name, bytes, pos, MemoryMode16Displacement, rm, isWord).value ==
      "[" + EffectiveAddressEquations[rm] + " - -32768]"
  {
    assert NatToString(32768) == "32768";
  }

  /** Displacement16Text for every other displacement. */
  lemma Displacement16Signed(name: string, bytes: seq<Byte>, pos: nat, rm: Field3, isWord: bool)
    requires pos + 2 <= |bytes| && LittleEndian(bytes[pos], bytes[pos + 1]) != 0x8000
    ensures RmOperand(name, bytes, pos, MemoryMode16Displacement, rm, isWord).value ==
      "[" + EffectiveAddressEquations[rm] + SignedSuffix(Int16(LittleEndian(bytes[pos], bytes[pos + 1]))) + "]"
  {
    var s := Int16(LittleEndian(bytes[pos], bytes[pos + 1]));
    if s < 0 {
      assert IntToString(Negate16(s)) == NatToString(-s);
    }
  }




  /**
   * The `(dest, src)` pair of `[mod|reg|r/m]` when the REG operand is already named:
   * D=1 puts the REG operand first, D=0 puts the R/M operand first.
   */
  function OperandPair(name: string, bytes: seq<Byte>, pos: nat, mod: Field2, regName: string, rm: Field3,
                       isWord: bool, dir: Bit): (o: Outcome<(string, string)>)
    requires pos <= |bytes|
    ensures var r := RmOperand(name, bytes, pos, mod, rm, isWord);
      o.pos == r.pos && (o.Fail? <==> r.Fail?) && (o.Fail? ==> o.error == r.error) &&
      (o.Done? && dir == RegIsDestination ==> o.value == (regName, r.value)) &&
      (o.Done? && dir == RegIsSource ==> o.value == (r.value, regName))
  {
    match RmOperand(name, bytes, pos, mod, rm, isWord)
    case Fail(e, p) => Fail(e, p)
    case Done(operand, p) =>
      Done(if dir == RegIsDestination then (regName, operand) else (operand, regName), p)
  }

  /** `decodeRegOrMem`: the operand pair with the REG operand read from the W-selected register table. */
  function RegOrMem(name: string, bytes: seq<Byte>, pos: nat, mod: Field2, reg: Field3, rm: Field3,
                    isWord: bool, dir: Bit): (o: Outcome<(string, string)>)
    requires pos <= |bytes|
    ensures o.Done? <==> pos + DisplacementLength(mod, rm) <= |bytes|
    ensures o.Done? ==> o.pos == pos + DisplacementLength(mod, rm)
    ensures o.Fail? ==> o.pos == |bytes| && o.error.Missing? && o.error.instruction == name
    ensures mod == RegisterMode ==>
      o == Done(if dir == RegIsDestination then (RegisterName(reg, isWord), RegisterName(rm, isWord))
                else (RegisterName(rm, isWord), RegisterName(reg, isWord)), pos)
  {
    OperandPair(name, bytes, pos, mod, RegisterName(reg, isWord), rm, isWord, dir)
  }

  function Width(isWord: bool): nat
  {
    if isWord then 2 else 1
  }

  /** A one-byte (zero-extended) or two-byte little-endian field, with the error for each missing byte. */
  function ReadField(bytes: seq<Byte>, pos: nat, isWord: bool, low: Error, high: Error, single: Error): (o: Outcome<Word>)
    requires pos <= |bytes|
  {
    if isWord then
      if pos == |bytes| then Fail(low, pos)
      else if pos + 1 == |bytes| then Fail(high, pos + 1)
      else Done(LittleEndian(bytes[pos], bytes[pos + 1]), pos + 2)
    else if pos == |bytes| then Fail(single, pos)
    else Done(bytes[pos], pos + 1)
  }

  /** `decodeImmediate`: two bytes, low first, when isWord, otherwise one byte zero-extended. */
  function ReadImmediate(name: string, bytes: seq<Byte>, pos: nat, isWord: bool): (o: Outcome<Word>)
    requires pos <= |bytes|
    ensures o.Done? <==> pos + Width(isWord) <= |bytes|
    ensures o.Done? ==> o.pos == pos + Width(isWord)
    ensures o.Done? ==> o.value == if isWord then bytes[pos] as int + 256 * bytes[pos + 1] as int else bytes[pos]
    ensures o.Fail? ==> (o.pos == |bytes| &&
      o.error == Missing(name, if !isWord then Immediate else if pos == |bytes| then ImmediateLow else ImmediateHigh))
  {
    ReadField(bytes, pos, isWord, Missing(name, ImmediateLow), Missing(name, ImmediateHigh), Missing(name, Immediate))
  }

  /** `decodeAddress`: the same reading as ReadImmediate, with the address errors. */
  function ReadAddress(name: string, bytes: seq<Byte>, pos: nat, isWord: bool): (o: Outcome<Word>)
    requires pos <= |bytes|
    ensures o.Done? <==> pos + Width(isWord) <= |bytes|
    ensures o.Done? ==> o.pos == pos + Width(isWord)
    ensures o.Done? ==> o.value == if isWord then bytes[pos] as int + 256 * bytes[pos + 1] as int else bytes[pos]
    ensures o.Fail? ==> (o.pos == |bytes| &&
      o.error == Missing(name, if !isWord then Address else if pos == |bytes| then AddressLow else AddressHigh))
  {
    ReadField(bytes, pos, isWord, Missing(name, AddressLow), Missing(name, AddressHigh), Missing(name, Address))
  }

  /** The decoder state: the immutable input, the cursor, the text so far and the jump labels. */
  class Decoder {
    const bytes: seq<Byte>
    var pos: nat
    var decoded: string
    var labels: map<int, string>

    ghost predicate Valid()
      reads this
    {
      pos <= |bytes|
    }

    /** `NewDecoder`: the cursor at the first byte, nothing decoded, no labels. */
    constructor (input: seq<Byte>)
      ensures bytes == input && pos == 0 && decoded == "" && labels == map[]
      ensures Valid()
    {
      bytes := input;
      pos := 0;
      decoded := "";
      labels := map[];
    }

    /** `next`: the byte under the cursor and one step forward, or `(0, false)` without moving at the end. */
    method Next() returns (b: Byte, ok: bool)
      modifies this`pos
      ensures ok <==> old(pos) < |bytes|
      ensures ok ==> b == bytes[old(pos)] && pos == old(pos) + 1
      ensures !ok ==> b == 0 && pos == old(pos)
      ensures old(Valid()) ==> Valid()
    {
      if |bytes| > pos {
        b := bytes[pos];
        pos := pos + 1;
        ok := true;
      } else {
        b, ok := 0, false;
      }
    }

    /** `peekNext`: the byte under the cursor, if any; the cursor does not move. */
    function PeekNext(): (r: Option<Byte>)
      reads this
      ensures r.Some? <==> pos < |bytes|
      ensures r.Some? ==> r.value == bytes[pos]
    {
      if pos < |bytes| then Some(bytes[pos]) else None
    }

    /** `decodeRegOrMem`: reads the displacement bytes MOD calls for and returns `(dest, src)`. */
    method DecodeRegOrMem(name: string, mod: Field2, reg: Field3, rm: Field3, isWord: bool, dir: Bit)
      returns (dest: string, src: string, err: Option<Error>)
      requires Valid()
      modifies this`pos
      ensures Valid()
      ensures Returns(RegOrMem(name, bytes, old(pos), mod, reg, rm, isWord, dir), (dest, src), err, pos)
    {
      var regName := RegisterName(reg, isWord);
      var operand: string;
      if mod == MemoryModeNoDisplacement {
        var equation: string;
        if rm == DirectAddressRm {
          var low, ok := Next();
          if !ok {
            return "", "", Some(Missing(name, DirectAddressLow));
          }
          var high;
          high, ok := Next();
          if !ok {
            return "", "", Some(Missing(name, DirectAddressHigh));
          }
          equation := NatToString(LittleEndian(low, high));
        } else {
          equation := EffectiveAddressEquations[rm];
        }
        operand := "[" + equation + "]";
      } else if mod == MemoryMode8Displacement {
        var displacement, ok := Next();
        if !ok {
          return "", "", Some(Missing(name, Displacement));
        }
        var signed := Int8(displacement);
        operand := Displaced(EffectiveAddressEquations[rm], signed, Negate8(signed), displacement);
      } else if mod == MemoryMode16Displacement {
        var low, ok := Next();
        if !ok {
          return "", "", Some(Missing(name, DisplacementLow));
        }
        var high;
        high, ok := Next();
        if !ok {
          return "", "", Some(Missing(name, DisplacementHigh));
        }
        var value := LittleEndian(low, high);
        var signed := Int16(value);
        operand := Displaced(EffectiveAddressEquations[rm], signed, Negate16(signed), value);
      } else {
        operand := RegisterName(rm, isWord);
      }
      if dir == RegIsDestination {
        dest, src := regName, operand;
      } else {
        dest, src := operand, regName;
      }
      err := None;
    }

    /** `decodeUnaryRegOrMem`: the R/M operand alone, reading the displacement bytes MOD calls for. */
    method DecodeUnaryRegOrMem(name: string, mod: Field2, rm: Field3, isWord: bool)
      returns (operand: string, err: Option<Error>)
      requires Valid()
      modifies this`pos
      ensures Valid()
      ensures Returns(RmOperand(name, bytes, old(pos), mod, rm, isWord), operand, err, pos)
    {
      if mod == RegisterMode {
        return RegisterName(rm, isWord), None;
      }
      if mod == MemoryModeNoDisplacement && rm != DirectAddressRm {
        return "[" + EffectiveAddressEquations[rm] + "]", None;
      }
      var low, ok := Next();
      if !ok {
        var field := if mod == MemoryModeNoDisplacement then DirectAddressLow
                     else if mod == MemoryMode8Displacement then Displacement
                     else DisplacementLow;
        return "", Some(Missing(name, field));
      }
      if mod == MemoryMode8Displacement {
        var signed := Int8(low);
        return Displaced(EffectiveAddressEquations[rm], signed, Negate8(signed), low), None;
      }
      var high;
      high, ok := Next();
      if !ok {
        var field := if mod == MemoryModeNoDisplacement then DirectAddressHigh else DisplacementHigh;
        return "", Some(Missing(name, field));
      }
      var value := LittleEndian(low, high);
      if mod == MemoryModeNoDisplacement {
        return "[" + NatToString(value) + "]", None;
      }
      var signed := Int16(value);
      return Displaced(EffectiveAddressEquations[rm], signed, Negate16(signed), value), None;
    }

    /** `decodeBinaryRegOrMem` (part1): the same pair as decodeRegOrMem, built from the R/M operand. */
    method DecodeBinaryRegOrMem(name: string, mod: Field2, reg: Field3, rm: Field3, isWord: bool, dir: Bit)
      returns (dest: string, src: string, err: Option<Error>)
      requires Valid()
      modifies this`pos
      ensures Valid()
      ensures Returns(RegOrMem(name, bytes, old(pos), mod, reg, rm, isWord, dir), (dest, src), err, pos)
    {
      dest, src, err := DecodeNamedRegOrMem(name, mod, RegisterName(reg, isWord), rm, isWord, dir);
    }

    /** `decodeBinaryRegOrMem` (sim8086): the pair for a REG operand named by the caller. */
    method DecodeNamedRegOrMem(name: string, mod: Field2, regName: string, rm: Field3, isWord: bool, dir: Bit)
      returns (dest: string, src: string, err: Option<Error>)
      requires Valid()
      modifies this`pos
      ensures Valid()
      ensures Returns(OperandPair(name, bytes, old(pos), mod, regName, rm, isWord, dir), (dest, src), err, pos)
    {
      var operand;
      operand, err := DecodeUnaryRegOrMem(name, mod, rm, isWord);
      if err.Some? {
        return "", "", err;
      }
      if dir == RegIsDestination {
        dest, src := regName, operand;
      } else {
        dest, src := operand, regName;
      }
    }

    /** Reads a one- or two-byte little-endian field, failing with the error for the first missing byte. */
    method DecodeField(isWord: bool, low: Error, high: Error, single: Error) returns (value: Word, err: Option<Error>)
      requires Valid()
      modifies this`pos
      ensures Valid()
      ensures Returns(ReadField(bytes, old(pos), isWord, low, high, single), value, err, pos)
    {
      if isWord {
        var lo, ok := Next();
        if !ok {
          return 0, Some(low);
        }
        var hi;
        hi, ok := Next();
        if !ok {
          return 0, Some(high);
        }
        return LittleEndian(lo, hi), None;
      } else {
        var v, ok := Next();
        if !ok {
          return 0, Some(single);
        }
        return v, None;
      }
    }

    /** `decodeImmediate`. */
    method DecodeImmediate(name: string, isWord: bool) returns (value: Word, err: Option<Error>)
      requires Valid()
      modifies this`pos
      ensures Valid()
      ensures Returns(ReadImmediate(name, bytes, old(pos), isWord), value, err, pos)
    {
      value, err := DecodeField(isWord, Missing(name, ImmediateLow), Missing(name, ImmediateHigh), Missing(name, Immediate));
    }

    /** `decodeAddress`. */
    method DecodeAddress(name: string, isWord: bool) returns (value: Word, err: Option<Error>)
      requires Valid()
      modifies this`pos
      ensures Valid()
      ensures Returns(ReadAddress(name, bytes, old(pos), isWord), value, err, pos)
    {
      value, err := DecodeField(isWord, Missing(name, AddressLow), Missing(name, AddressHigh), Missing(name, Address));
    }
  }
}
