/** Operand texts: "<variable>", "<variable>+<offset>" or a plain number. Blanks are the only white space and
    upper case means ASCII upper case. */
module DspVarOffsetCalc {
  import opened Wrappers

  function RemoveBlanks(s: string): string {
    if s == "" then ""
    else (if s[0] == ' ' then "" else [s[0]]) + RemoveBlanks(s[1..])
  }

  function UpperChar(c: char): char {
    if 'a' <= c <= 'z' then (c as int - 32) as char else c
  }

  function ToUpper(s: string): string {
    seq(|s|, i requires 0 <= i < |s| => UpperChar(s[i]))
  }

  function DropPluses(s: string): string {
    if s != "" && s[0] == '+' then DropPluses(s[1..]) else s
  }

  function UntilPlus(s: string): (r: string)
    ensures r <= s
    ensures '+' !in r
    ensures |r| < |s| ==> s[|r|] == '+'
  {
    if s == "" || s[0] == '+' then "" else [s[0]] + UntilPlus(s[1..])
  }

  /** The first non-empty part of the text when it is cut at every plus sign. */
  function FirstSummand(s: string): Option<string> {
    var t := DropPluses(s);
    if t == "" then None else Some(UntilPlus(t))
  }

  function DigitValue(c: char): Option<nat> {
    if '0' <= c <= '9' then Some(c as int - '0' as int)
    else if 'a' <= c <= 'f' then Some(c as int - 'a' as int + 10)
    else if 'A' <= c <= 'F' then Some(c as int - 'A' as int + 10)
    else None
  }

  function Digits(s: string, base: nat): Option<nat> {
    if s == "" then Some(0)
    else
      match (Digits(s[..|s| - 1], base), DigitValue(s[|s| - 1]))
      case (Some(high), Some(low)) => if low < base then Some(high * base + low) else None
      case _ => None
  }

  /** QString::toInt for base 10 and base 16, which alone knows a 0x prefix. */
  function ToInt(s: string, base: nat): Option<int> {
    var signed := s != "" && (s[0] == '-' || s[0] == '+');
    var body := if signed then s[1..] else s;
    var prefixed := base == 16 && |body| >= 2 && body[0] == '0' && (body[1] == 'x' || body[1] == 'X');
    var digits := if prefixed then body[2..] else body;
    if digits == "" then None
    else
      match Digits(digits, base)
      case None => None
      case Some(n) =>
        var magnitude: int := n;
        var value := if signed && s[0] == '-' then -magnitude else magnitude;
        if -0x8000_0000 <= value < 0x8000_0000 then Some(value) else None
  }

  function CalcOffset(offsetText: string): Option<nat> {
    var decimal := ToInt(offsetText, 10);
    var offset := if decimal.Some? then decimal else ToInt(offsetText, 16);
    if offset.Some? && offset.value >= 0 then Some(offset.value) else None
  }

  function CalcVarOffset(varName: string, varWithOffset: string): Option<nat> {
    var text := RemoveBlanks(varWithOffset);
    var name := RemoveBlanks(varName);
    if !(name <= text) then None
    else if |text| == |name| then Some(0)
    else CalcOffset(text[|name|..])
  }

  /** Decimal digits as QString::arg prints them. */
  function Decimal(n: nat): (s: string)
    ensures s != ""
  {
    var digit := [(n % 10 + '0' as int) as char];
    if n < 10 then digit else Decimal(n / 10) + digit
  }

  lemma {:induction false} DecimalDigits(n: nat)
    ensures Digits(Decimal(n), 10) == Some(n)
    ensures forall i :: 0 <= i < |Decimal(n)| ==> '0' <= Decimal(n)[i] <= '9'
  {
    var s := Decimal(n);
    if n < 10 {
      assert s[..0] == "";
    } else {
      DecimalDigits(n / 10);
      assert s[..|s| - 1] == Decimal(n / 10);
    }
  }

  /** A number printed by the server into a command is read back as the same number. */
  lemma DecimalReadsBack(n: nat)
    requires n < 0x8000_0000
    ensures CalcOffset(Decimal(n)) == Some(n)
    ensures CalcOffset("+" + Decimal(n)) == Some(n)
  {
    DecimalDigits(n);
    var s := "+" + Decimal(n);
    assert s[1..] == Decimal(n);
    assert Decimal(n)[0] != '-' && Decimal(n)[0] != '+';
  }

  lemma {:induction false} NoBlanksToRemove(s: string)
    requires ' ' !in s
    ensures RemoveBlanks(s) == s
  {
    if s == "" {
    } else {
      NoBlanksToRemove(s[1..]);
      assert s == [s[0]] + s[1..];
    }
  }

  lemma {:induction false} NoPlusToCut(s: string, tail: string)
    requires s != "" && '+' !in s
    requires tail == "" || tail[0] == '+'
    ensures FirstSummand(s + tail) == Some(s)
  {
    assert (s + tail)[0] == s[0];
    UntilPlusStops(s, tail);
  }

  lemma {:induction false} UntilPlusStops(s: string, tail: string)
    requires '+' !in s
    requires tail == "" || tail[0] == '+'
    ensures UntilPlus(s + tail) == s
  {
    if s == "" {
      assert s + tail == tail;
    } else {
      assert (s + tail)[0] == s[0] && (s + tail)[1..] == s[1..] + tail;
      UntilPlusStops(s[1..], tail);
    }
  }

  /** The documented operand form: the variable's own name, or the name, a plus sign and a decimal offset. */
  lemma VarOffsetReadsBack(name: string, k: nat)
    requires ' ' !in name && k < 0x8000_0000
    ensures CalcVarOffset(name, name) == Some(0)
    ensures CalcVarOffset(name, name + "+" + Decimal(k)) == Some(k)
  {
    var token := name + "+" + Decimal(k);
    DecimalDigits(k);
    NoBlanksToRemove(name);
    NoBlanksToRemove(token);
    assert token[|name|..] == "+" + Decimal(k);
    DecimalReadsBack(k);
  }

  // ---------- the fallback to hexadecimal, and what is no number

  function HexDigit(d: nat): char
    requires d < 16
  {
    if d < 10 then (d + '0' as int) as char else (d - 10 + 'A' as int) as char
  }

  function Hex(n: nat): (s: string)
    ensures s != ""
  {
    if n < 16 then [HexDigit(n)] else Hex(n / 16) + [HexDigit(n % 16)]
  }

  lemma {:induction false} HexDigits(n: nat)
    ensures Digits(Hex(n), 16) == Some(n)
    ensures forall i :: 0 <= i < |Hex(n)| ==> '0' <= Hex(n)[i] <= '9' || 'A' <= Hex(n)[i] <= 'F'
  {
    var s := Hex(n);
    if n < 16 {
      assert s[..0] == "";
    } else {
      HexDigits(n / 16);
      assert s[..|s| - 1] == Hex(n / 16);
    }
  }

  lemma {:induction false} NoDigits(s: string, base: nat, i: nat)
    requires i < |s| && (DigitValue(s[i]) == None || DigitValue(s[i]).value >= base)
    ensures Digits(s, base) == None
  {
    if i == |s| - 1 {
    } else {
      NoDigits(s[..|s| - 1], base, i);
    }
  }

  lemma NotDecimal(s: string, i: nat)
    requires 0 < i < |s| && !('0' <= s[i] <= '9')
    ensures ToInt(s, 10) == None
  {
    var signed := s[0] == '-' || s[0] == '+';
    var body := if signed then s[1..] else s;
    NoDigits(body, 10, if signed then i - 1 else i);
  }

  /** An offset with a 0x prefix is hexadecimal. */
  lemma PrefixedHexReadsBack(n: nat)
    requires n < 0x8000_0000
    ensures CalcOffset("0x" + Hex(n)) == Some(n) && CalcOffset("+0x" + Hex(n)) == Some(n)
  {
    hide Digits, Hex, ToInt;
    var s := "0x" + Hex(n);
    NotDecimal(s, 1);
    NotDecimal("+" + s, 2);
    assert "+0x" + Hex(n) == "+" + s;
    PrefixedHex(n);
  }

  lemma PrefixedHex(n: nat)
    requires n < 0x8000_0000
    ensures ToInt("0x" + Hex(n), 16) == Some(n) && ToInt("+0x" + Hex(n), 16) == Some(n)
  {
    hide Digits, Hex;
    HexDigits(n);
    var s := "0x" + Hex(n);
    assert s[2..] == Hex(n) && ("+" + s)[1..] == s;
  }

  /** And so is one with no prefix as soon as it has a letter; digits alone are decimal. */
  lemma LetteredHexReadsBack(n: nat, i: nat)
    requires n < 0x8000_0000 && i < |Hex(n)| && 'A' <= Hex(n)[i] <= 'F'
    ensures CalcOffset(Hex(n)) == Some(n)
  {
    hide Digits, Hex, ToInt;
    HexDigits(n);
    PlainInt(Hex(n), 16, n);
    if i == 0 {
      FirstNotDecimal(Hex(n));
    } else {
      NotDecimal(Hex(n), i);
    }
  }

  lemma FirstNotDecimal(s: string)
    requires s != "" && 'A' <= s[0] <= 'F'
    ensures ToInt(s, 10) == None
  {
    NoDigits(s, 10, 0);
    hide Digits;
  }

  /** Digits without a sign or a prefix. */
  lemma PlainInt(s: string, base: nat, n: nat)
    requires s != "" && s[0] != '-' && s[0] != '+' && (|s| < 2 || (s[1] != 'x' && s[1] != 'X')) && Digits(s, base) == Some(n)
    ensures ToInt(s, base) == if n < 0x8000_0000 then Some(n as int) else None
  {
    hide Digits;
  }

  /** A negative number is no offset. */
  lemma NegativeIsNoOffset(n: nat)
    requires 0 < n <= 0x8000_0000
    ensures ToInt("-" + Decimal(n), 10) == Some(-(n as int)) && CalcOffset("-" + Decimal(n)) == None
  {
    DecimalDigits(n);
    var s := "-" + Decimal(n);
    assert s[1..] == Decimal(n);
  }

  lemma {:induction false} HexReadingIsLarger(s: string)
    ensures Digits(s, 10).Some? ==> Digits(s, 16).Some? && Digits(s, 16).value >= Digits(s, 10).value
  {
    if s == "" {
    } else {
      HexReadingIsLarger(s[..|s| - 1]);
    }
  }

  /** Numbers are read back up to the largest int, and no further. */
  lemma DecimalReadsBackIff(n: nat)
    ensures CalcOffset(Decimal(n)) == if n < 0x8000_0000 then Some(n) else None
  {
    hide Digits, Decimal, ToInt;
    var s := Decimal(n);
    DecimalDigits(n);
    HexReadingIsLarger(s);
    PlainInt(s, 10, n);
    PlainInt(s, 16, Digits(s, 16).value);
  }
}
