// Which texts are numbers, and which of them are lengths and chunk sizes.

module HttpLengths {
  import opened Basics
  import opened HttpModel
  import opened HttpRoundTrip
  import opened HttpMessages
  import opened HttpNumbers
  import opened HttpServed

  // ------------------------------------------------------------ digits

  function Zeros(k: nat): Text { seq(k, _ => '0') }

  // The numeral of n behind some noughts, in small letters or capitals.
  ghost predicate Spells(s: Text, base: nat, n: nat)
    requires IsBase(base)
  {
    exists k: nat :: Lower(s) == Zeros(k) + Numeral(n, base)
  }

  lemma CharExactly(c: char, d: int)
    requires 0 <= d < 16
    ensures Digit(c) == d <==> ToLower(c) == DigitChar(d)
  {
  }

  lemma LowerSplits(s: Text)
    requires s != ""
    ensures Lower(s) == Lower(s[..|s| - 1]) + [ToLower(s[|s| - 1])]
  {
  }

  // A numeral is that of what is above its last digit, and that digit.
  lemma NumeralSplits(n: nat, base: nat)
    requires IsBase(base)
    ensures n >= base ==> Numeral(n, base) == Numeral(Quot(n, base), base) + [DigitChar(Rem(n, base))]
    ensures n < base ==> Numeral(n, base) == [DigitChar(n)]
  {
    if n < base { assert "" + [DigitChar(n)] == [DigitChar(n)]; }
  }

  lemma ValueSplits(a: nat, d: nat, base: nat)
    requires IsBase(base) && d < base
    ensures Quot(a * base + d, base) == a && Rem(a * base + d, base) == d && (a > 0 ==> a * base + d >= base)
  {
  }

  // One digit more.
  lemma SpellsMore(t: Text, c: char, base: nat, a: nat, d: nat)
    requires IsBase(base) && d < base && Spells(t, base, a) && ToLower(c) == DigitChar(d)
    ensures Spells(t + [c], base, a * base + d)
  {
    var k: nat :| Lower(t) == Zeros(k) + Numeral(a, base);
    LowerSplits(t + [c]);
    assert (t + [c])[..|t|] == t;
    ValueSplits(a, d, base);
    NumeralSplits(a, base);
    NumeralSplits(a * base + d, base);
    if a == 0 {
      assert Zeros(k) + ['0'] == Zeros(k + 1);
      assert Lower(t + [c]) == Zeros(k + 1) + Numeral(d, base);
    } else {
      Associate(Zeros(k), Numeral(a, base), [DigitChar(d)]);
    }
  }

  lemma SpellsFirst(c: char, base: nat, d: nat)
    requires IsBase(base) && d < base && ToLower(c) == DigitChar(d)
    ensures Spells([c], base, d)
  {
    NumeralSplits(d, base);
    assert Lower([c]) == Zeros(0) + Numeral(d, base);
  }

  // One digit fewer.
  lemma SpellsLess(t: Text, c: char, base: nat, n: nat) returns (a: nat, d: nat)
    requires IsBase(base) && Spells(t + [c], base, n)
    ensures d < base && ToLower(c) == DigitChar(d) && n == a * base + d
    ensures if t == "" then a == 0 else Spells(t, base, a)
  {
    var k: nat :| Lower(t + [c]) == Zeros(k) + Numeral(n, base);
    a, d := Quot(n, base), Rem(n, base);
    Regroup(n, base);
    NumeralSplits(n, base);
    LowerSplits(t + [c]);
    assert (t + [c])[..|t|] == t;
    if n >= base {
      Associate(Zeros(k), Numeral(a, base), [DigitChar(d)]);
      LastOf(Lower(t), ToLower(c), Zeros(k) + Numeral(a, base), DigitChar(d));
      assert Lower(t) == Zeros(k) + Numeral(a, base);
      assert Numeral(a, base) != "";
    } else {
      LastOf(Lower(t), ToLower(c), Zeros(k), DigitChar(d));
      if t != "" {
        NumeralSplits(0, base);
        assert Zeros(k) == Zeros(k - 1) + ['0'];
      }
    }
  }

  lemma LastOf(a: Text, x: char, b: Text, y: char)
    requires a + [x] == b + [y]
    ensures a == b && x == y
  {
    assert |a + [x]| == |b + [y]|;
    assert (a + [x])[|a|] == (b + [y])[|b|];
    assert (a + [x])[..|a|] == a && (b + [y])[..|b|] == b;
  }

  lemma {:induction false} DigitsExactly(s: Text, base: nat, n: nat)
    requires IsBase(base) && s != ""
    ensures Digits(s, base) == Some(n) <==> Spells(s, base, n)
    decreases |s|
  {
    var t, c := s[..|s| - 1], s[|s| - 1];
    assert s == t + [c];
    if Digits(s, base) == Some(n) { DigitsSpell(s, base, n); }
    if Spells(s, base, n) {
      var a, d := SpellsLess(t, c, base, n);
      CharExactly(c, d);
      if t != "" { DigitsExactly(t, base, a); }
    }
  }

  lemma DigitsSplit(t: Text, c: char, base: nat, n: nat) returns (a: nat)
    requires Digits(t + [c], base) == Some(n)
    ensures 0 <= Digit(c) < base && Digits(t, base) == Some(a) && n == a * base + Digit(c) && (t == "" ==> a == 0)
  {
    assert (t + [c])[..|t|] == t;
    DigitsNotNegative(t, base);
    a := Digits(t, base).value;
  }

  lemma {:induction false} DigitsSpell(s: Text, base: nat, n: nat)
    requires IsBase(base) && s != "" && Digits(s, base) == Some(n)
    ensures Spells(s, base, n)
    decreases |s|
  {
    var t, c := s[..|s| - 1], s[|s| - 1];
    assert s == t + [c];
    var a := DigitsSplit(t, c, base, n);
    CharExactly(c, Digit(c));
    if t == "" {
      SpellsFirst(c, base, n);
      assert s == [c];
    } else {
      DigitsSpell(t, base, a);
      SpellsMore(t, c, base, a, Digit(c));
    }
  }

  lemma {:induction false} DigitsNotNegative(s: Text, base: nat)
    ensures Digits(s, base).Some? ==> Digits(s, base).value >= 0
    decreases |s|
  {
    if s != "" { DigitsNotNegative(s[..|s| - 1], base); }
  }

  // ------------------------------------------------------------ numbers

  function Abs(n: int): nat { if n < 0 then -n else n }

  // The signs that a number may have.
  predicate GoodSign(sign: Text, n: int) {
    if sign == "-" then -MAX63 <= n <= 0 else (sign == "" || sign == "+") && 0 <= n < MAX63
  }

  ghost predicate NumberText(s: Text, base: nat, n: int)
    requires IsBase(base)
  {
    exists sign :: GoodSign(sign, n) && sign <= s && s != sign && Spells(s[|sign|..], base, Abs(n))
  }

  function SignAt(s: Text): Text { if s != "" && s[0] == '+' then "+" else if s != "" && s[0] == '-' then "-" else "" }

  lemma SignOf(s: Text, sign: Text, base: nat, n: nat)
    requires IsBase(base) && sign <= s && s != sign && (sign == "" || sign == "+" || sign == "-")
    requires Spells(s[|sign|..], base, n)
    ensures sign == SignAt(s)
  {
    if sign == "" {
      assert s[|sign|..] == s;
      DigitsExactly(s, base, n);
      FirstIsDigit(s, base);
    }
  }

  lemma {:induction false} FirstIsDigit(s: Text, base: nat)
    requires s != "" && Digits(s, base).Some? && base <= 16
    ensures Digit(s[0]) < 16
    decreases |s|
  {
    if |s| > 1 { FirstIsDigit(s[..|s| - 1], base); }
  }

  lemma ParseSplits(s: Text, base: nat, n: int)
    requires IsBase(base)
    ensures SignAt(s) <= s
    ensures ParseInt(s, base) == Some(n) <==>
              GoodSign(SignAt(s), n) && s[|SignAt(s)|..] != "" && Digits(s[|SignAt(s)|..], base) == Some(Abs(n))
  {
    DigitsNotNegative(s[|SignAt(s)|..], base);
    assert SignAt(s) == "" ==> s[|SignAt(s)|..] == s;
  }

  // A text is parsed as a number exactly if it is that number, with a sign or noughts before it or
  // not, and not too large.
  lemma ParsedExactly(s: Text, base: nat, n: int)
    requires IsBase(base)
    ensures ParseInt(s, base) == Some(n) <==> NumberText(s, base, n)
  {
    ParseSplits(s, base, n);
    var sign := SignAt(s);
    var digits := s[|sign|..];
    if digits != "" { DigitsExactly(digits, base, Abs(n)); }
    assert GoodSign(sign, n) && digits != "" && Spells(digits, base, Abs(n)) ==> NumberText(s, base, n);
    if NumberText(s, base, n) {
      var other :| GoodSign(other, n) && other <= s && s != other && Spells(s[|other|..], base, Abs(n));
      SignOf(s, other, base, Abs(n));
    }
  }

  // ------------------------------------------------------------ lengths

  function Spaces(k: nat): Text { seq(k, _ => ' ') }

  lemma OneMoreSpace(s: Text, t: Text, k: nat)
    requires s != "" && s[|s| - 1] == ' ' && s[..|s| - 1] == t + Spaces(k)
    ensures s == t + Spaces(k + 1)
  {
    assert Spaces(k) + [' '] == Spaces(k + 1) && s == s[..|s| - 1] + [' '];
    Associate(t, Spaces(k), [' ']);
  }

  lemma {:induction false} CutExactly(s: Text) returns (k: nat)
    ensures s == CutBlanks(s) + Spaces(k)
    decreases |s|
  {
    k := 0;
    if s == "" || s[|s| - 1] != ' ' {
      assert s + Spaces(0) == s;
    } else {
      k := CutExactly(s[..|s| - 1]);
      OneMoreSpace(s, CutBlanks(s), k);
      k := k + 1;
    }
  }

  // A length, with blanks behind it or not.
  ghost predicate LengthText(s: Text, n: nat) { exists k: nat, t :: s == t + Spaces(k) && NumberText(t, 10, n) }

  lemma NumberEnds(t: Text, n: nat)
    requires NumberText(t, 10, n)
    ensures t != "" && t[|t| - 1] != ' '
  {
    ParsedExactly(t, 10, n);
  }

  // A Content-Length is taken exactly if it is a number that is not negative, and then it is that.
  lemma LengthExactly(header: Header, n: nat)
    requires CL in header && HasLength(header[CL])
    ensures ContentLength(header, false) == (None, n) <==> LengthText(header[CL][0], n)
  {
    var s := header[CL][0];
    var t := CutBlanks(s);
    var k := CutExactly(s);
    ParsedExactly(t, 10, n);
    if NumberText(t, 10, n) { assert s == t + Spaces(k); }
    if LengthText(s, n) {
      var j: nat, u :| s == u + Spaces(j) && NumberText(u, 10, n);
      NumberEnds(u, n);
      BlanksAreCut(u, j);
    }
  }

  // A chunk size is good exactly if it is a number in hexadecimal that is not too large.
  lemma SizeExactly(s: Text, n: int)
    ensures GoodSize(s, n) <==> s != "" && 0 <= n < MAX63 && Spells(s, 16, n)
  {
    if s != "" {
      ParsedExactly(s, 16, n);
      if GoodSize(s, n) || (0 <= n && Spells(s, 16, n)) { AllHex(s, n); }
    }
  }

  lemma AllHex(s: Text, n: int)
    requires s != "" && (GoodSize(s, n) || (0 <= n && Spells(s, 16, n)))
    ensures (forall c :: c in s ==> IsHex(c)) && (0 <= n < MAX63 && Spells(s, 16, n) <==> NumberText(s, 16, n))
  {
    assert s[0] in s;
    if GoodSize(s, n) {
      ParsedExactly(s, 16, n);
      DigitsExactly(s, 16, n);
    } else {
      DigitsExactly(s, 16, n);
      DigitsHex(s);
    }
    assert s[|""|..] == s;
    assert 0 <= n < MAX63 && Spells(s, 16, n) ==> GoodSign("", n);
  }

  lemma {:induction false} DigitsHex(s: Text)
    requires Digits(s, 16).Some?
    ensures forall c :: c in s ==> IsHex(c)
    decreases |s|
  {
    if s != "" {
      DigitsHex(s[..|s| - 1]);
      assert s == s[..|s| - 1] + [s[|s| - 1]];
    }
  }
}
