/** Printing numbers in a given base, and parsing them back. */
module Numbers {
  import opened Words

  // ----- division and multiplication by a base, one step at a time -----

  // With a variable base the operators are nonlinear; the proofs go by these recursive forms, and TimesIs
  // and DivIs say that they are the operators.

  function Div(n: nat, b: nat): (q: nat)
    requires b > 0
    ensures q <= n && (n >= b > 1 ==> q < n)
  {
    if n < b then 0 else 1 + Div(n - b, b)
  }

  function Mod(n: nat, b: nat): (r: nat)
    requires b > 0
    ensures r < b
  {
    if n < b then n else Mod(n - b, b)
  }

  function Times(v: int, b: nat): int { if b == 0 then 0 else Times(v, b - 1) + v }

  lemma {:induction false} TimesIs(v: int, b: nat)
    ensures Times(v, b) == v * b
  {
    if b > 0 { TimesIs(v, b - 1); }
  }

  lemma {:induction false} TimesNext(v: int, b: nat)
    ensures Times(v + 1, b) == Times(v, b) + b
  {
    if b > 0 { TimesNext(v, b - 1); }
  }

  lemma {:induction false} TimesZero(b: nat)
    ensures Times(0, b) == 0
  {
    if b > 0 { TimesZero(b - 1); }
  }

  lemma {:induction false} Recombine(n: nat, b: nat)
    requires b > 0
    ensures Times(Div(n, b), b) + Mod(n, b) == n
  {
    if n < b { TimesZero(b); } else {
      Recombine(n - b, b);
      TimesNext(Div(n - b, b), b);
    }
  }

  lemma AtLeastOnce(k: int, b: nat)
    requires k >= 1
    ensures k * b >= b
  {}

  lemma OneQuotient(b: nat, q: int, r: int, q': int, r': int)
    requires q * b + r == q' * b + r' && 0 <= r < b && 0 <= r' < b
    ensures q == q' && r == r'
  {
    assert (q - q') * b == r' - r;
    if q > q' { AtLeastOnce(q - q', b); } else if q < q' {
      assert (q' - q) * b == r - r';
      AtLeastOnce(q' - q, b);
    }
  }

  lemma DivIs(n: nat, b: nat)
    requires b > 0
    ensures Div(n, b) == n / b && Mod(n, b) == n % b
  {
    Recombine(n, b);
    TimesIs(Div(n, b), b);
    OneQuotient(b, Div(n, b), Mod(n, b), n / b, n % b);
  }

  // ----- printing -----

  function Digit(d: nat): char
    requires d < 16
  {
    "0123456789abcdef"[d]
  }

  function Digits(num: nat, base: nat): (s: string)
    requires 2 <= base <= 16
    ensures |s| > 0
  {
    (if num >= base then Digits(Div(num, base), base) else "") + [Digit(Mod(num, base))]
  }

  function Pads(n: int, pad: char): (s: string)
    ensures |s| == if n <= 0 then 0 else n
    ensures forall i :: 0 <= i < |s| ==> s[i] == pad
  {
    if n <= 0 then "" else seq(n, _ => pad)
  }

  method PadOut(out: string, width: int, pad: char) returns (out': string)
    ensures out' == out + Pads(width - 1, pad)
  {
    out' := out;
    var w := width - 1;
    ghost var n := 0;
    while w > 0
      invariant 0 <= n && out' == out + Pads(n, pad) && (n == 0 || w >= 0) && n + w == width - 1
      decreases w
    {
      assert Pads(n, pad) + [pad] == Pads(n + 1, pad);
      out', w, n := out' + [pad], w - 1, n + 1;
    }
  }

  /** Prints the higher digits first; the padding comes before the highest. */
  method PrintNum(out: string, num: nat, base: nat, width: int, pad: char) returns (out': string)
    requires 2 <= base <= 16
    ensures out' == out + Pads(width - |Digits(num, base)|, pad) + Digits(num, base)
    decreases num
  {
    DivIs(num, base);
    if num >= base {
      out' := PrintNum(out, num / base, base, width - 1, pad);
    } else {
      out' := PadOut(out, width, pad);
    }
    out' := out' + [Digit(num % base)];
  }

  // ----- parsing -----

  /** The value of a digit or letter. */
  function DigitValue(c: char): (v: int)
    ensures -1 <= v < 36
  {
    if '0' <= c <= '9' then c as int - '0' as int
    else if 'a' <= c <= 'z' then c as int - 'a' as int + 10
    else if 'A' <= c <= 'Z' then c as int - 'A' as int + 10
    else -1
  }

  /** Exactly the decimal digit, or the small and the capital letter, stand for a value; printed are small ones. */
  lemma DigitLetters(d: nat, c: char)
    requires d < 36
    ensures DigitValue(c) == d <==>
            if d < 10 then c as int == '0' as int + d else c as int == 'a' as int + d - 10 || c as int == 'A' as int + d - 10
    ensures d < 16 ==> DigitValue(Digit(d)) == d && !('A' <= Digit(d) <= 'Z')
  {}

  predicate IsDigit(c: char, base: nat) { 0 <= DigitValue(c) < base }

  /** Where the digits that start at i end. */
  function DigitsEnd(s: string, i: nat, base: nat): (j: nat)
    requires i <= |s|
    ensures i <= j <= |s|
    decreases |s| - i
  {
    if i < |s| && IsDigit(s[i], base) then DigitsEnd(s, i + 1, base) else i
  }

  /** The number that the digits from i up to j stand for. */
  function Value(s: string, i: nat, j: nat, base: nat): int
    requires i <= j <= |s|
    decreases j
  {
    if i == j then 0 else Signed(Times(Value(s, i, j - 1, base), base) + DigitValue(s[j - 1]))
  }

  function SkipBlanks(s: string, i: nat): (j: nat)
    requires i <= |s|
    ensures i <= j <= |s|
    decreases |s| - i
  {
    if i < |s| && (s[i] == ' ' || s[i] == '\t') then SkipBlanks(s, i + 1) else i
  }

  function Sign(s: string, i: nat): (sign: nat)
    requires i <= |s|
    ensures i + sign <= |s|
  {
    if i < |s| && (s[i] == '+' || s[i] == '-') then 1 else 0
  }

  predicate Hex(s: string, i: nat, base: nat) {
    (base == 0 || base == 16) && i + 1 < |s| && s[i] == '0' && s[i + 1] == 'x'
  }

  /** The base, and how many characters settle it. */
  function Base(s: string, i: nat, base: nat): (r: (nat, nat))
    requires i <= |s|
    ensures i + r.1 <= |s|
  {
    if Hex(s, i, base) then (16, 2)
    else if base == 0 && i < |s| && s[i] == '0' then (8, 1)
    else if base == 0 then (10, 0) else (base, 0)
  }

  function Negated(neg: bool, v: int): int { if neg then Signed(-v) else v }

  function Number(s: string, neg: bool, start: nat, base: nat): (int, nat)
    requires start <= |s|
  {
    var end := DigitsEnd(s, start, base);
    (Negated(neg, Value(s, start, end, base)), end)
  }

  /** Blanks, a sign, a prefix that settles the base, digits: the number and where it ends. */
  function Parse(s: string, base: nat): (int, nat) {
    var i := SkipBlanks(s, 0);
    var j := i + Sign(s, i);
    var b := Base(s, j, base);
    Number(s, i < |s| && s[i] == '-', j + b.1, b.0)
  }

  method ParseDigits(s: string, neg: bool, start: nat, base: nat) returns (val: int, end: nat)
    requires start <= |s|
    ensures (val, end) == Number(s, neg, start, base)
  {
    val := 0;
    end := start;
    while end < |s| && IsDigit(s[end], base)
      invariant start <= end <= |s| && val == Value(s, start, end, base)
      invariant DigitsEnd(s, start, base) == DigitsEnd(s, end, base)
    {
      TimesIs(val, base);
      val, end := Signed(val * base + DigitValue(s[end])), end + 1;
    }
    if neg { val := Signed(-val); }
  }

  method Strtol(s: string, base: nat) returns (val: int, end: nat)
    ensures (val, end) == Parse(s, base)
  {
    var i := 0;
    while i < |s| && (s[i] == ' ' || s[i] == '\t')
      invariant i <= |s| && SkipBlanks(s, 0) == SkipBlanks(s, i)
    {
      i := i + 1;
    }
    var neg := false;
    if i < |s| && s[i] == '+' { i := i + 1; } else if i < |s| && s[i] == '-' { i, neg := i + 1, true; }
    var b;
    i, b := ParsePrefix(s, i, base);
    val, end := ParseDigits(s, neg, i, b);
  }

  method ParsePrefix(s: string, i: nat, base: nat) returns (j: nat, b: nat)
    requires i <= |s|
    ensures (b, j - i) == Base(s, i, base)
  {
    j, b := i, base;
    if (base == 0 || base == 16) && i + 1 < |s| && s[i] == '0' && s[i + 1] == 'x' {
      j, b := i + 2, 16;
    } else if base == 0 && i < |s| && s[i] == '0' {
      j, b := i + 1, 8;
    } else if base == 0 {
      b := 10;
    }
  }

  // ----- what is printed is parsed back -----

  /** Neither blank nor sign nor part of a prefix. */
  predicate Plain(c: char) { c != ' ' && c != '\t' && c != '+' && c != '-' && c != 'x' }

  lemma DigitReads(d: nat)
    requires d < 16
    ensures DigitValue(Digit(d)) == d && Plain(Digit(d))
  {}

  lemma {:induction false} DigitsAreDigits(num: nat, base: nat, i: nat)
    requires 2 <= base <= 16 && i < |Digits(num, base)|
    ensures IsDigit(Digits(num, base)[i], base) && Plain(Digits(num, base)[i])
    decreases num
  {
    if num >= base && i < |Digits(num, base)| - 1 {
      DigitsAreDigits(Div(num, base), base, i);
    } else {
      DigitReads(Mod(num, base));
    }
  }

  /** The digits of s from i on are those printed for num, after zeros. */
  ghost predicate Printed(s: string, i: nat, j: nat, num: nat, base: nat)
    requires 2 <= base <= 16
  {
    i <= j && j + |Digits(num, base)| == |s| && s[j..] == Digits(num, base) && forall k :: i <= k < j ==> s[k] == '0'
  }

  lemma {:induction false} AllDigits(s: string, i: nat, k: nat, j: nat, num: nat, base: nat)
    requires 2 <= base <= 16 && Printed(s, i, j, num, base) && i <= k <= |s|
    ensures DigitsEnd(s, k, base) == |s|
    decreases |s| - k
  {
    if k < |s| {
      if k >= j {
        DigitsAreDigits(num, base, k - j);
        assert s[j..][k - j] == s[k];
      }
      AllDigits(s, i, k + 1, j, num, base);
    }
  }

  lemma {:induction false} ZerosValue(s: string, i: nat, j: nat, base: nat)
    requires i <= j <= |s| && forall k :: i <= k < j ==> s[k] == '0'
    ensures Value(s, i, j, base) == 0
    decreases j
  {
    if i < j {
      ZerosValue(s, i, j - 1, base);
      TimesZero(base);
    }
  }

  lemma LastDigit(s: string, j: nat, num: nat, base: nat, end: nat)
    requires 2 <= base <= 16 && end == j + |Digits(num, base)| <= |s| && s[j..end] == Digits(num, base)
    ensures DigitValue(s[end - 1]) == Mod(num, base)
    ensures num >= base ==> end - 1 == j + |Digits(Div(num, base), base)| && s[j..end - 1] == Digits(Div(num, base), base)
    ensures num < base ==> end == j + 1
  {
    DigitReads(Mod(num, base));
    LastOf(s, j, end, if num >= base then Digits(Div(num, base), base) else "", Digit(Mod(num, base)));
  }

  lemma LastOf(s: string, j: nat, end: nat, a: string, c: char)
    requires j <= end <= |s| && s[j..end] == a + [c]
    ensures end - 1 == j + |a| && s[end - 1] == c && s[j..end - 1] == a
  {
    assert s[end - 1] == s[j..end][|a|];
    assert s[j..end - 1] == s[j..end][..|a|];
  }

  lemma SignedFits(x: int)
    requires 0 <= x < 0x8000_0000
    ensures Signed(x) == x && Signed(-x) == -x
  {}

  /** The printed digits of a number that fits stand for the number. */
  lemma {:induction false} PrintedValue(s: string, i: nat, j: nat, num: nat, base: nat, end: nat)
    requires 2 <= base <= 16 && num < 0x8000_0000 && i <= j && end == j + |Digits(num, base)| <= |s|
    requires s[j..end] == Digits(num, base) && forall k :: i <= k < j ==> s[k] == '0'
    ensures Value(s, i, end, base) == num
    decreases num
  {
    LastDigit(s, j, num, base, end);
    Recombine(num, base);
    SignedFits(num);
    if num >= base {
      PrintedValue(s, i, j, Div(num, base), base, end - 1);
    } else {
      ZerosValue(s, i, j, base);
    }
  }

  lemma NumberPrinted(s: string, neg: bool, i: nat, j: nat, num: nat, base: nat)
    requires 2 <= base <= 16 && num < 0x8000_0000 && Printed(s, i, j, num, base)
    ensures Number(s, neg, i, base) == (if neg then -(num as int) else num as int, |s|)
  {
    AllDigits(s, i, i, j, num, base);
    assert s[j..|s|] == s[j..];
    PrintedValue(s, i, j, num, base, |s|);
    SignedFits(num);
  }

  lemma ParsePlain(s: string, base: nat, start: nat)
    requires base != 0 && start < |s| && SkipBlanks(s, 0) == start && Plain(s[start]) && !Hex(s, start, base)
    ensures Parse(s, base) == Number(s, false, start, base)
  {}

  lemma {:induction false} BlanksSkipped(s: string, i: nat, j: nat)
    requires i <= j <= |s| && (forall k :: i <= k < j ==> s[k] == ' ') && (j < |s| ==> s[j] != ' ' && s[j] != '\t')
    ensures SkipBlanks(s, i) == j
    decreases j - i
  {
    if i < j { BlanksSkipped(s, i + 1, j); }
  }

  lemma PrintedAt(pads: string, num: nat, base: nat, i: nat)
    requires 2 <= base <= 16 && |pads| <= i < |pads| + |Digits(num, base)|
    ensures Plain((pads + Digits(num, base))[i])
  {
    DigitsAreDigits(num, base, i - |pads|);
  }

  /** Every number below 2^31, printed in any base up to sixteen with blanks or zeros in front, is
      parsed back, to the end of the output; and the output is as wide as asked for, or as wide as
      the number. */
  lemma RoundTrip(num: nat, base: nat, width: int, pad: char)
    requires 2 <= base <= 16 && num < 0x8000_0000 && (pad == ' ' || pad == '0')
    ensures var n := |Digits(num, base)|;
            var s := Pads(width - n, pad) + Digits(num, base);
            |s| == (if width > n then width else n) && Parse(s, base) == (num as int, |s|)
  {
    var pads := Pads(width - |Digits(num, base)|, pad);
    var s := pads + Digits(num, base);
    var start := if pad == ' ' then |pads| else 0;
    PrintedFront(pads, num, base, pad);
    ParsePlain(s, base, start);
    assert s[|pads|..] == Digits(num, base);
    NumberPrinted(s, false, start, |pads|, num, base);
  }

  lemma PrintedFront(pads: string, num: nat, base: nat, pad: char)
    requires 2 <= base <= 16 && (pad == ' ' || pad == '0') && forall i :: 0 <= i < |pads| ==> pads[i] == pad
    ensures var s, start := pads + Digits(num, base), if pad == ' ' then |pads| else 0;
            SkipBlanks(s, 0) == start < |s| && Plain(s[start]) && !Hex(s, start, base)
  {
    var s, start := pads + Digits(num, base), if pad == ' ' then |pads| else 0;
    PrintedAt(pads, num, base, |pads|);
    if |pads| + 1 < |s| { PrintedAt(pads, num, base, |pads| + 1); }
    BlanksSkipped(s, 0, start);
  }

  /** A sign, and the prefixes that settle the base when it is left open, are understood. */
  lemma SignedRoundTrip(num: nat, neg: bool, prefix: string, base: nat, given: nat)
    requires num < 0x8000_0000
    requires (prefix == "0x" && base == 16 && given in {0, 16}) || (prefix == "0" && base == 8 && given == 0)
    ensures var s := (if neg then "-" else "+") + prefix + Digits(num, base);
            Parse(s, given) == (if neg then -(num as int) else num as int, |s|)
  {
    var lead := (if neg then "-" else "+") + prefix;
    var s := lead + Digits(num, base);
    PrintedAt(lead, num, base, |lead|);
    assert s[|lead|..] == Digits(num, base);
    NumberPrinted(s, neg, |lead|, |lead|, num, base);
    ParseLead(s, neg, prefix, base, given);
  }

  lemma ParseLead(s: string, neg: bool, prefix: string, base: nat, given: nat)
    requires (prefix == "0x" && base == 16 && given in {0, 16}) || (prefix == "0" && base == 8 && given == 0)
    requires |s| > 1 + |prefix| && s[0] == (if neg then '-' else '+') && s[1..1 + |prefix|] == prefix && Plain(s[1 + |prefix|])
    ensures Parse(s, given) == Number(s, neg, 1 + |prefix|, base)
  {
    BlanksSkipped(s, 0, 0);
    assert s[1] == s[1..1 + |prefix|][0];
    if base == 16 { assert s[2] == s[1..3][1]; }
  }
}
