/** The size line of a chunk: hex_to_dec reads it, std::hex prints it. */
module HexSize {
  import opened Text

  const DIGITS := "0123456789abcdef"

  predicate IsDigit(c: char) {
    '0' <= c <= '9' || 'a' <= c <= 'f'
  }

  function DigitValue(c: char): (v: nat)
    requires IsDigit(c)
    ensures v < 16 && DIGITS[v] == c
  {
    if c <= '9' then c as int - '0' as int else c as int - 'a' as int + 10
  }

  /** hex_to_dec does not reject the line: it is not empty and holds lower-case hex, spaces and tabs only. */
  predicate Accepted(hex: string) {
    hex != "" && DigitsOrBlanks(hex)
  }

  predicate DigitsOrBlanks(s: string) {
    forall i :: 0 <= i < |s| ==> IsBlank(s[i]) || IsDigit(s[i])
  }

  /** Base-16 value read from left to right, blanks skipped. */
  function Value(hex: string): nat
    requires DigitsOrBlanks(hex)
  {
    if hex == "" then 0
    else
      var last := hex[|hex| - 1];
      if IsBlank(last) then Value(hex[..|hex| - 1])
      else 16 * Value(hex[..|hex| - 1]) + DigitValue(last)
  }

  function HexToDec(hex: string): int {
    if Accepted(hex) then Value(hex) else -1
  }

  function Power16(n: nat): nat {
    if n == 0 then 1 else 16 * Power16(n - 1)
  }

  /** Taking the digit at i into the sum. */
  lemma DigitStep(hex: string, i: nat, p: nat, res: int)
    requires i < |hex| && DigitsOrBlanks(hex) && res + p * Value(hex[..i + 1]) == Value(hex)
    ensures if IsBlank(hex[i]) then res + p * Value(hex[..i]) == Value(hex)
            else res + DigitValue(hex[i]) * p + (16 * p) * Value(hex[..i]) == Value(hex)
  {
    ValueStep(hex, i);
    hide Value, DigitValue;
    if !IsBlank(hex[i]) {
      MulStep(p, Value(hex[..i]), DigitValue(hex[i]));
    }
  }

  lemma ValueStep(hex: string, i: nat)
    requires i < |hex| && DigitsOrBlanks(hex)
    ensures Value(hex[..i + 1]) == if IsBlank(hex[i]) then Value(hex[..i])
        else 16 * Value(hex[..i]) + DigitValue(hex[i])
  {
    assert hex[..i + 1][..i] == hex[..i];
  }

  lemma MulStep(p: nat, v: nat, d: nat)
    ensures p * (16 * v + d) == d * p + (16 * p) * v
  {
  }

  /** The right-to-left power sum is the left-to-right value, and no partial sum exceeds it. */
  method HexToDecLoop(hex: string) returns (res: int)
    ensures res == HexToDec(hex)
  {
    hide Value, DigitValue;
    res := 0;
    var j := 0;
    if hex == "" {
      return -1;
    }
    var i := |hex| - 1;
    assert hex[..i + 1] == hex;
    while i >= 0
      invariant -1 <= i < |hex|
      invariant forall k :: i < k < |hex| ==> IsBlank(hex[k]) || IsDigit(hex[k])
      invariant 0 <= j
      invariant Accepted(hex) ==> 0 <= res && res + Power16(j) * Value(hex[..i + 1]) == Value(hex)
    {
      if Accepted(hex) {
        DigitStep(hex, i, Power16(j), res);
      }
      if IsBlank(hex[i]) {
        i := i - 1;
        continue;
      }
      if !IsDigit(hex[i]) {
        return -1;
      }
      res := res + DigitValue(hex[i]) * Power16(j);
      j := j + 1;
      i := i - 1;
    }
    if Accepted(hex) {
      ValueOfNothing(hex[..0]);
    }
  }

  lemma ValueOfNothing(hex: string)
    requires hex == ""
    ensures Value(hex) == 0
  {
  }

  /** What `std::hex << n` prints. */
  function Print(n: nat): (hex: string)
    ensures Accepted(hex)
  {
    if n < 16 then [DIGITS[n]] else Print(n / 16) + [DIGITS[n % 16]]
  }

  lemma {:induction false} PrintThenRead(n: nat)
    ensures Value(Print(n)) == n
    ensures HexToDec(Print(n)) == n
    ensures forall i :: 0 <= i < |Print(n)| ==> IsDigit(Print(n)[i])
  {
    DigitOf(n % 16);
    if n >= 16 {
      PrintThenRead(n / 16);
      var hex := Print(n);
      assert hex[..|hex| - 1] == Print(n / 16);
    } else {
      assert Print(n)[..0] == "";
    }
  }

  lemma DigitOf(n: nat)
    requires n < 16
    ensures IsDigit(DIGITS[n]) && !IsBlank(DIGITS[n]) && DigitValue(DIGITS[n]) == n
  {
  }

  /** A size line that is accepted holds no carriage return, so it ends where its CRLF stands. */
  lemma AcceptedHasNoCr(hex: string)
    requires Accepted(hex)
    ensures '\r' !in hex
  {
  }

  /** How many digits a line has. */
  function DigitCount(hex: string): nat {
    if hex == "" then 0 else DigitCount(hex[..|hex| - 1]) + if IsBlank(hex[|hex| - 1]) then 0 else 1
  }

  /** Positional notation: the digits in front count by powers of sixteen, blanks anywhere do not count. */
  lemma {:induction false} ValueJoins(a: string, b: string)
    requires DigitsOrBlanks(a) && DigitsOrBlanks(b)
    ensures DigitsOrBlanks(a + b) && Value(a + b) == Value(a) * Power16(DigitCount(b)) + Value(b)
    decreases b
  {
    if b == "" {
      assert a + b == a;
      assert Value(b) == 0 && Power16(DigitCount(b)) == 1;
    } else {
      hide DigitValue, Value, DigitCount;
      var n := |b| - 1;
      ValueJoins(a, b[..n]);
      assert a + b == a + b[..n] + [b[n]] && b == b[..n] + [b[n]];
      LastDigit(a + b[..n], b[n]);
      LastDigit(b[..n], b[n]);
      Regroup(Value(a), Power16(DigitCount(b[..n])), Value(b[..n]));
    }
  }

  lemma LastDigit(s: string, c: char)
    requires DigitsOrBlanks(s) && (IsBlank(c) || IsDigit(c))
    ensures DigitsOrBlanks(s + [c])
    ensures Value(s + [c]) == if IsBlank(c) then Value(s) else 16 * Value(s) + DigitValue(c)
    ensures DigitCount(s + [c]) == DigitCount(s) + if IsBlank(c) then 0 else 1
  {
    assert (s + [c])[..|s|] == s;
    hide DigitValue;
  }

  lemma Regroup(x: nat, p: nat, y: nat)
    ensures 16 * (x * p + y) == x * (16 * p) + 16 * y
  {
  }

  lemma ValueOfOne(n: nat)
    requires n < 16
    ensures Value([DIGITS[n]]) == n && Value(" ") == Value("\t") == Value("") == 0
  {
    DigitOf(n);
    assert [DIGITS[n]][..0] == "" && " "[..0] == "" && "\t"[..0] == "";
  }

  /** Exactly which lines are rejected. */
  lemma RejectedLine(hex: string)
    ensures HexToDec(hex) == -1 <==>
      hex == "" || exists i :: 0 <= i < |hex| && hex[i] !in "0123456789abcdef" && hex[i] != ' ' && hex[i] != '\t'
  {
    hide Value;
    forall i | 0 <= i < |hex|
      ensures IsBlank(hex[i]) || IsDigit(hex[i]) <==> hex[i] in "0123456789abcdef" || hex[i] == ' ' || hex[i] == '\t'
    {
      DigitIn(hex[i]);
    }
  }

  lemma DigitIn(c: char)
    ensures IsDigit(c) <==> c in DIGITS
  {
    if IsDigit(c) {
      assert DIGITS[DigitValue(c)] == c;
    }
  }
}
