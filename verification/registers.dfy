/** Architectural register names. Registers are named "F0", "F1", ... and an
    instruction operand is turned into a register index by reading the number
    after the leading 'F' or 'f' the way C's atoi does. */
module Registers {

  predicate IsDigit(c: char) {
    '0' <= c <= '9'
  }

  /** The characters C's isspace accepts in the "C" locale. */
  predicate IsSpace(c: char) {
    c == ' ' || c == '\t' || c == '\n' || c == '\r' || c == '\U{000B}' || c == '\U{000C}'
  }

  predicate AllDigits(s: string) {
    forall i :: 0 <= i < |s| ==> IsDigit(s[i])
  }

  /** Drops leading white space. */
  function SkipSpace(s: string): (t: string)
    ensures |t| <= |s| && t == s[|s| - |t|..]
    ensures |t| == 0 || !IsSpace(t[0])
  {
    if |s| > 0 && IsSpace(s[0]) then SkipSpace(s[1..]) else s
  }

  /** The longest prefix of `s` made of decimal digits. */
  function LeadingDigits(s: string): (d: string)
    ensures d <= s && AllDigits(d)
    ensures |d| == |s| || !IsDigit(s[|d|])
  {
    if |s| > 0 && IsDigit(s[0]) then [s[0]] + LeadingDigits(s[1..]) else []
  }

  function DigitValue(c: char): nat
    requires IsDigit(c)
  {
    (c as int) - ('0' as int)
  }

  /** The number a string of decimal digits denotes (0 for the empty string). */
  function DigitsValue(d: string): nat
    requires AllDigits(d)
  {
    if |d| == 0 then 0 else DigitsValue(d[..|d| - 1]) * 10 + DigitValue(d[|d| - 1])
  }

  /** C's atoi on unbounded integers: optional white space, an optional sign,
      then as many digits as follow; 0 when no digit follows. */
  function Atoi(s: string): int {
    var t := SkipSpace(s);
    if |t| > 0 && t[0] == '-' then 0 - DigitsValue(LeadingDigits(t[1..]))
    else if |t| > 0 && t[0] == '+' then DigitsValue(LeadingDigits(t[1..]))
    else DigitsValue(LeadingDigits(t))
  }

  /** The index of register operand `r` in a file of `count` registers, or -1
      when the name is too short, does not start with 'F' or 'f', or its number
      falls outside 0 .. count - 1. */
  function RegIndex(r: string, count: nat): (idx: int)
    ensures idx == -1 || 0 <= idx < count
    ensures idx >= 0 <==> |r| >= 2 && (r[0] == 'F' || r[0] == 'f') && 0 <= Atoi(r[1..]) < count
    ensures idx >= 0 ==> idx == Atoi(r[1..])
  {
    if |r| < 2 || (r[0] != 'F' && r[0] != 'f') then -1
    else
      var n := Atoi(r[1..]);
      if n < 0 || n >= count then -1 else n
  }

  function DigitChar(d: nat): (c: char)
    requires d < 10
    ensures IsDigit(c) && DigitValue(c) == d
  {
    ('0' as int + d) as char
  }

  /** The decimal spelling of `n` without sign or leading zeros (C++ to_string). */
  function DecimalString(n: nat): (s: string)
    ensures |s| >= 1 && AllDigits(s)
  {
    if n < 10 then [DigitChar(n)] else DecimalString(n / 10) + [DigitChar(n % 10)]
  }

  /** The name the register file gives register `i`. */
  function RegName(i: nat): string {
    "F" + DecimalString(i)
  }

  /** Reading back the digits of a decimal spelling gives the number. */
  lemma {:induction false} DecimalStringValue(n: nat)
    ensures DigitsValue(DecimalString(n)) == n
  {
    var s := DecimalString(n);
    if n >= 10 {
      DecimalStringValue(n / 10);
      assert s[..|s| - 1] == DecimalString(n / 10);
    }
  }

  lemma {:induction false} LeadingDigitsOfDigits(s: string)
    requires AllDigits(s)
    ensures LeadingDigits(s) == s
  {
    if |s| > 0 {
      LeadingDigitsOfDigits(s[1..]);
    }
  }

  /** atoi reads a decimal spelling back as its number. */
  lemma AtoiOfDecimal(n: nat)
    ensures Atoi(DecimalString(n)) == n
  {
    var d := DecimalString(n);
    assert !IsSpace(d[0]) && d[0] != '-' && d[0] != '+' by {
      assert IsDigit(d[0]);
    }
    assert SkipSpace(d) == d;
    LeadingDigitsOfDigits(d);
    DecimalStringValue(n);
  }

  /** Looking up the name of register `i` gives back index `i`. */
  lemma RegIndexOfName(i: nat, count: nat)
    requires i < count
    ensures RegIndex(RegName(i), count) == i
  {
    assert RegName(i)[1..] == DecimalString(i);
    AtoiOfDecimal(i);
  }

  /** Distinct registers have distinct names. */
  lemma RegNameInjective(i: nat, j: nat)
    requires RegName(i) == RegName(j)
    ensures i == j
  {
    RegIndexOfName(i, i + j + 1);
    RegIndexOfName(j, i + j + 1);
  }

  /** The value of the register whose name is exactly `name`, scanning the file
      from register `from` upwards; 0 when no register has that name. */
  function ReadRegisterFrom(regs: seq<int>, name: string, from: nat): (v: int)
    requires from <= |regs|
    ensures (forall i :: from <= i < |regs| ==> RegName(i) != name) ==> v == 0
    ensures forall i :: from <= i < |regs| && RegName(i) == name ==> v == regs[i]
    decreases |regs| - from
  {
    if from == |regs| then 0
    else if RegName(from) == name then
      assert forall i :: from <= i < |regs| && RegName(i) == name ==> i == from by {
        forall i | from <= i < |regs| && RegName(i) == name
          ensures i == from
        {
          RegNameInjective(i, from);
        }
      }
      regs[from]
    else ReadRegisterFrom(regs, name, from + 1)
  }

  /** The source reads an operand's value by comparing its spelling with the
      register names, so a spelling that RegIndex accepts but that is not the
      canonical name ("f1", "F01", "F1x") reads as 0. */
  function ReadRegisterByName(regs: seq<int>, name: string): (v: int)
    ensures (forall i :: 0 <= i < |regs| ==> RegName(i) != name) ==> v == 0
    ensures forall i :: 0 <= i < |regs| && RegName(i) == name ==> v == regs[i]
  {
    ReadRegisterFrom(regs, name, 0)
  }

  /** For the canonical spelling the name lookup and the index lookup agree. */
  lemma ReadByNameAgreesOnCanonicalNames(regs: seq<int>, i: nat)
    requires i < |regs|
    ensures RegIndex(RegName(i), |regs|) == i
    ensures ReadRegisterByName(regs, RegName(i)) == regs[i]
  {
    RegIndexOfName(i, |regs|);
  }

  /** The discrepancy: with F1 = 5, the operand "f1" is register 1 for the alias
      table but reads as 0 from the register file. */
  lemma LowercaseOperandReadsZero()
    ensures RegIndex("f1", 2) == 1
    ensures ReadRegisterByName([0, 5], "f1") == 0
    ensures [0, 5][RegIndex("f1", 2)] == 5
  {
    assert DecimalString(1) == "1";
    assert "f1"[1..] == DecimalString(1);
    AtoiOfDecimal(1);
    assert RegName(0) != "f1" by {
      assert RegName(0)[0] == 'F';
    }
    assert RegName(1) != "f1" by {
      assert RegName(1)[0] == 'F';
    }
  }
}
