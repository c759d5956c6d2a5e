// What header values carry: a length in decimal, chunk sizes in hexadecimal, names of fields.

module HttpNumbers {
  import opened Basics
  import opened HttpModel
  import opened HttpRoundTrip
  import opened HttpMessages

  function DigitChar(d: int): char
    requires 0 <= d < 16
  {
    if d < 10 then '0' + d as char else 'a' + (d - 10) as char
  }

  predicate IsBase(base: nat) { base == 10 || base == 16 }

  function Quot(n: nat, base: nat): nat { if base == 10 then n / 10 else n / 16 }

  function Rem(n: nat, base: nat): nat { if base == 10 then n % 10 else n % 16 }

  function Numeral(n: nat, base: nat): Text
    requires IsBase(base)
    decreases n
  {
    (if n < base then "" else Numeral(Quot(n, base), base)) + [DigitChar(Rem(n, base))]
  }

  lemma DigitOfChar(d: int)
    requires 0 <= d < 16
    ensures Digit(DigitChar(d)) == d && IsHex(DigitChar(d))
  {
  }

  lemma DigitsOfMore(above: Text, d: int, base: nat)
    requires 0 <= d < base <= 16 && Digits(above, base).Some?
    ensures Digits(above + [DigitChar(d)], base) == Some(Digits(above, base).value * base + d)
  {
    var s := above + [DigitChar(d)];
    assert s[..|s| - 1] == above;
    DigitOfChar(d);
  }

  lemma {:induction false} NumeralIsHex(n: nat, base: nat, c: char)
    requires IsBase(base) && c in Numeral(n, base)
    ensures IsHex(c)
    decreases n
  {
    DigitOfChar(Rem(n, base));
    if c != DigitChar(Rem(n, base)) { NumeralIsHex(Quot(n, base), base, c); }
  }

  lemma Regroup(n: nat, base: nat)
    requires IsBase(base)
    ensures Quot(n, base) * base + Rem(n, base) == n && (n < base ==> Rem(n, base) == n) && Rem(n, base) < base
  {
  }

  lemma {:induction false} NumeralIsDigits(n: nat, base: nat)
    requires IsBase(base)
    ensures Digits(Numeral(n, base), base) == Some(n)
    decreases n
  {
    Regroup(n, base);
    if n < base {
      DigitsOfMore("", Rem(n, base), base);
    } else {
      NumeralIsDigits(Quot(n, base), base);
      DigitsOfMore(Numeral(Quot(n, base), base), Rem(n, base), base);
    }
  }

  // Printed and parsed, a number is the same.
  lemma NumeralParses(n: nat, base: nat)
    requires IsBase(base) && n < MAX63
    ensures ParseInt(Numeral(n, base), base) == Some(n)
  {
    NumeralIsDigits(n, base);
    NumeralIsHex(n, base, Numeral(n, base)[0]);
    UnsignedParses(Numeral(n, base), base, n);
  }

  lemma UnsignedParses(s: Text, base: nat, n: nat)
    requires s != "" && IsHex(s[0]) && Digits(s, base) == Some(n) && n < MAX63
    ensures ParseInt(s, base) == Some(n)
  {
  }

  lemma NumeralIsGoodSize(n: nat)
    requires n < MAX63
    ensures GoodSize(Numeral(n, 16), n)
  {
    NumeralParses(n, 16);
    forall c | c in Numeral(n, 16)
      ensures IsHex(c)
    {
      NumeralIsHex(n, 16, c);
    }
  }

  // A Content-Length, blanks behind it or not, is the length it says.
  lemma {:induction false} BlanksAreCut(s: Text, blanks: nat)
    requires s != "" && s[|s| - 1] != ' '
    ensures CutBlanks(s + seq(blanks, _ => ' ')) == s
    decreases blanks
  {
    var t := s + seq(blanks, _ => ' ');
    if blanks == 0 {
      assert t == s;
    } else {
      assert t[..|t| - 1] == s + seq(blanks - 1, _ => ' ');
      BlanksAreCut(s, blanks - 1);
    }
  }

  lemma LengthIsRead(header: Header, n: nat, blanks: nat)
    requires n < MAX63 && CL in header && header[CL] == [Numeral(n, 10) + seq(blanks, _ => ' ')]
    ensures ContentLength(header, false) == (None, n)
  {
    var s := Numeral(n, 10);
    NumeralIsHex(n, 10, s[|s| - 1]);
    BlanksAreCut(s, blanks);
    NumeralParses(n, 10);
  }

  // ------------------------------------------------------------ the names in a Trailer value

  predicate AllSpace(s: Text) { forall c :: c in s ==> IsSpace(c) }

  // What may stand before a name and behind it.
  datatype Pad = Pad(before: Text, after: Text)

  predicate Blank(pad: Pad) { AllSpace(pad.before) && AllSpace(pad.after) }

  // The names of the fields, separated by commas, with blanks around them.
  function Names(fs: seq<Field>, pads: seq<Pad>): Text
    requires |fs| == |pads|
  {
    if fs == [] then ""
    else (pads[0].before + (fs[0].name + pads[0].after)) + if |fs| == 1 then "" else "," + Names(fs[1..], pads[1..])
  }

  lemma {:induction false} NameIsScanned(lib: Lib, part: Text, name: Text, value: Text)
    requires ',' !in name
    ensures TrailerKeys(lib, name + value, part) == TrailerKeys(lib, value, part + name)
    decreases |name|
  {
    if name == "" {
      assert name + value == value && part + name == part;
    } else {
      assert (name + value)[1..] == name[1..] + value && part + [name[0]] + name[1..] == part + name;
      NameIsScanned(lib, part + [name[0]], name[1..], value);
    }
  }

  lemma {:induction false} TrimBefore(blanks: Text, s: Text)
    requires AllSpace(blanks)
    ensures Trim(blanks + s) == Trim(s)
    decreases |blanks|
  {
    if blanks == "" {
      assert blanks + s == s;
    } else {
      assert (blanks + s)[1..] == blanks[1..] + s;
      TrimBefore(blanks[1..], s);
    }
  }

  lemma {:induction false} TrimAfter(name: Text, blanks: Text)
    requires name != "" && !IsSpace(name[0]) && !IsSpace(name[|name| - 1]) && AllSpace(blanks)
    ensures Trim(name + blanks) == name
    decreases |blanks|
  {
    var s, n := name + blanks, |blanks| - 1;
    if blanks == "" {
      assert s == name;
    } else {
      assert s[0] == name[0] && s[|s| - 1] == blanks[n] && s[..|s| - 1] == name + blanks[..n];
      TrimAfter(name, blanks[..n]);
    }
  }

  lemma TokenIsNoSpace(c: char)
    requires IsToken(c)
    ensures !IsSpace(c) && c != ','
  {
  }

  lemma NameIsTrimmed(name: Text, pad: Pad)
    requires name != "" && (forall c :: c in name ==> IsToken(c)) && Blank(pad)
    ensures var part := pad.before + (name + pad.after); Trim(part) == name && ',' !in part
  {
    TokenIsNoSpace(name[0]);
    TokenIsNoSpace(name[|name| - 1]);
    TrimBefore(pad.before, name + pad.after);
    TrimAfter(name, pad.after);
    forall c | c in pad.before + (name + pad.after)
      ensures c != ','
    {
      if c in name { TokenIsNoSpace(c); }
    }
  }

  // These names, unless one of them is a key that no trailer may have.
  function Allowed(names: set<Text>): Option<set<Text>> {
    if names * {TE, TR, CL} == {} then Some(names) else None
  }

  lemma AllowedBoth(a: set<Text>, b: set<Text>)
    ensures Allowed(a + b) == if Allowed(a) == None || Allowed(b) == None then None else Some(a + b)
  {
    assert (a + b) * {TE, TR, CL} == a * {TE, TR, CL} + b * {TE, TR, CL};
  }

  lemma FirstName(lib: Lib, name: Text, pad: Pad, more: Text)
    requires name != "" && (forall c :: c in name ==> IsToken(c)) && Blank(pad)
    ensures var part := pad.before + (name + pad.after);
            && TrailerKeys(lib, part, "") == Allowed({lib.canonical(name)})
            && TrailerKeys(lib, part + ("," + more), "")
            == var rest := TrailerKeys(lib, more, "");
               if rest == None || Allowed({lib.canonical(name)}) == None then None
                 else Some({lib.canonical(name)} + rest.value)
  {
    var part := pad.before + (name + pad.after);
    NameIsTrimmed(name, pad);
    NameIsScanned(lib, "", part, "");
    NameIsScanned(lib, "", part, "," + more);
    assert part + "" == part && "" + part == part && ("," + more)[1..] == more;
  }

  // What is announced as the names of the fields is read as those names, and refused if and
  // only if one of them is not allowed.
  lemma {:induction false} NamesAreRead(lib: Lib, fs: seq<Field>, pads: seq<Pad>)
    requires |fs| == |pads| && (forall f :: f in fs ==> GoodTrailerField(lib, f)) && forall pad :: pad in pads ==>
             Blank(pad)
    ensures TrailerKeys(lib, Names(fs, pads), "") == Allowed(TrailerSet(lib, fs))
    decreases |fs|
  {
    if fs == [] {
      assert Trim("") == "";
    } else {
      var f, pad, rest := fs[0], pads[0], TrailerSet(lib, fs[1..]);
      assert GoodTrailerField(lib, f) && Blank(pad);
      var part, name := pad.before + (f.name + pad.after), lib.canonical(f.name);
      FirstName(lib, f.name, pad, if |fs| == 1 then "" else Names(fs[1..], pads[1..]));
      if |fs| == 1 {
        assert rest == {} && {name} + rest == {name} && part + "" == part;
      } else {
        NamesAreRead(lib, fs[1..], pads[1..]);
        AllowedBoth({name}, rest);
      }
    }
  }

  // So a header with that value announces the trailer.
  lemma NamesAnnounce(lib: Lib, kept: Header, fs: seq<Field>, pads: seq<Pad>)
    requires |fs| == |pads| && (forall f :: f in fs ==> GoodTrailerField(lib, f)) &&
             (forall pad :: pad in pads ==> Blank(pad))
    requires TR in kept && kept[TR] == [Names(fs, pads)]
    ensures Announced(lib, kept) == Allowed(TrailerSet(lib, fs))
  {
    NamesAreRead(lib, fs, pads);
    assert AllTrailerKeys(lib, kept[TR][1..]) == Some({});
    if Allowed(TrailerSet(lib, fs)).Some? { assert TrailerSet(lib, fs) + {} == TrailerSet(lib, fs); }
  }
}
