/**
  The numeric token parser of the scraper: a display-formatted cell such as
  "1,234.56" becomes a number, and anything that does not read as a decimal
  number becomes a missing value. Thousands separators are deleted first,
  wherever they stand, and the rest is read with a plain decimal grammar:

      token    ::= sign? unsigned
      sign     ::= '+' | '-'
      unsigned ::= digit+ ('.' digit*)? | '.' digit+
*/
module NumberParsing {
  import opened Wrappers

  /** The separator deleted from a cell before it is read as a number. */
  const Separator: char := ','

  predicate IsDigit(c: char) {
    '0' <= c <= '9'
  }

  predicate AllDigits(s: string) {
    forall i :: 0 <= i < |s| ==> IsDigit(s[i])
  }

  predicate HasDigit(s: string) {
    exists i :: 0 <= i < |s| && IsDigit(s[i])
  }

  /** A character that can occur in a comma-free decimal token. */
  predicate IsNumeralChar(c: char) {
    IsDigit(c) || c == '+' || c == '-' || c == '.'
  }

  function DigitValue(c: char): (d: nat)
    requires IsDigit(c)
    ensures d < 10
  {
    c as int - '0' as int
  }

  function DigitChar(d: nat): (c: char)
    requires d < 10
    ensures IsDigit(c) && DigitValue(c) == d
  {
    ('0' as int + d) as char
  }

  /** The token with every separator deleted and every other character kept, in order. */
  function StripSeparators(s: string): (t: string)
    ensures Separator !in t
  {
    if s == [] then []
    else (if s[0] == Separator then [] else [s[0]]) + StripSeparators(s[1..])
  }

  /** Deleting separators keeps every other character, as often as it occurs. */
  lemma {:induction false} StripKeepsOthers(s: string)
    ensures forall c | c != Separator :: multiset(StripSeparators(s))[c] == multiset(s)[c]
    decreases |s|
  {
    if s != [] {
      StripKeepsOthers(s[1..]);
      assert s == [s[0]] + s[1..];
    }
  }

  /** The value of a digit string read as a whole number, most significant digit first. */
  function WholeValue(ds: string): nat
    requires AllDigits(ds)
  {
    if ds == [] then 0 else 10 * WholeValue(ds[..|ds| - 1]) + DigitValue(ds[|ds| - 1])
  }

  /** The value of a digit string read as the digits after a decimal point. */
  function FractionValue(ds: string): real
    requires AllDigits(ds)
  {
    if ds == [] then 0.0 else (DigitValue(ds[0]) as real + FractionValue(ds[1..])) / 10.0
  }

  /** The value of whole digits `ds` followed by fraction digits `frac`. */
  function Magnitude(ds: string, frac: string): real
    requires AllDigits(ds) && AllDigits(frac)
  {
    WholeValue(ds) as real + FractionValue(frac)
  }

  /** The position of the first '.', or the length of the token when there is none. */
  function FirstDot(t: string): (i: nat)
    ensures i <= |t|
    ensures forall j :: 0 <= j < i ==> t[j] != '.'
    ensures i < |t| ==> t[i] == '.'
  {
    if t == [] || t[0] == '.' then 0 else 1 + FirstDot(t[1..])
  }

  /** Reads `unsigned`: digits, optionally a point and more digits, with a digit somewhere. */
  function ParseUnsigned(t: string): Option<real>
  {
    var i := FirstDot(t);
    var whole := t[..i];
    var frac := if i < |t| then t[i + 1..] else [];
    if |whole| + |frac| > 0 && AllDigits(whole) && AllDigits(frac) then
      Some(Magnitude(whole, frac))
    else
      None
  }

  /** Reads `token`: an optional sign followed by `unsigned`. */
  function ParseDecimal(t: string): Option<real>
  {
    if t != [] && (t[0] == '+' || t[0] == '-') then
      match ParseUnsigned(t[1..])
      case None => None
      case Some(v) => Some(if t[0] == '-' then -v else v)
    else
      ParseUnsigned(t)
  }

  /** `parse_float`: delete the separators, then read the rest as a decimal number. */
  function ParseFloat(s: string): Option<real>
  {
    ParseDecimal(StripSeparators(s))
  }

  // ---------------------------------------------------------------------------
  // Separators are only separators
  // ---------------------------------------------------------------------------

  lemma {:induction false} StripAppend(a: string, b: string)
    ensures StripSeparators(a + b) == StripSeparators(a) + StripSeparators(b)
    decreases |a|
  {
    if a == [] {
      assert a + b == b;
    } else {
      assert (a + b)[1..] == a[1..] + b;
      StripAppend(a[1..], b);
    }
  }

  lemma {:induction false} StripNoSeparator(t: string)
    requires Separator !in t
    ensures StripSeparators(t) == t
    decreases |t|
  {
    if t != [] {
      StripNoSeparator(t[1..]);
    }
  }

  /** Parsing a token gives the same answer as parsing it with its separators deleted. */
  lemma ParseIgnoresSeparators(s: string)
    ensures ParseFloat(s) == ParseFloat(StripSeparators(s))
  {
    StripNoSeparator(StripSeparators(s));
  }

  lemma StripSeparatorAlone()
    ensures StripSeparators([Separator]) == []
  {
    assert [Separator][1..] == [];
  }

  lemma StripInserted(a: string, b: string)
    ensures StripSeparators(a + [Separator] + b) == StripSeparators(a + b)
  {
    StripAppend(a + [Separator], b);
    StripAppend(a, [Separator]);
    StripAppend(a, b);
    StripSeparatorAlone();
  }

  /** A separator inserted anywhere in a token never changes what the token parses to. */
  lemma InsertSeparator(s: string, i: nat)
    requires i <= |s|
    ensures ParseFloat(s[..i] + [Separator] + s[i..]) == ParseFloat(s)
  {
    StripInserted(s[..i], s[i..]);
    assert s[..i] + s[i..] == s;
  }

  // ---------------------------------------------------------------------------
  // Malformed tokens are missing values, never errors
  // ---------------------------------------------------------------------------

  lemma UnsignedHasDigit(t: string)
    requires ParseUnsigned(t).Some?
    ensures HasDigit(t)
  {
    var i := FirstDot(t);
    if i > 0 {
      assert IsDigit(t[..i][0]);
    } else {
      assert IsDigit(t[i + 1..][0]);
      assert t[i + 1..][0] == t[i + 1];
    }
  }

  lemma UnsignedCharset(t: string)
    requires ParseUnsigned(t).Some?
    ensures forall k :: 0 <= k < |t| ==> IsDigit(t[k]) || t[k] == '.'
  {
    var i := FirstDot(t);
    forall k | 0 <= k < |t|
      ensures IsDigit(t[k]) || t[k] == '.'
    {
      if k < i {
        assert t[k] == t[..i][k];
      } else if k > i {
        assert t[k] == t[i + 1..][k - i - 1];
      }
    }
  }

  /** Every token that parses holds at least one digit. */
  lemma ParsedHasDigit(t: string)
    ensures ParseDecimal(t).Some? ==> HasDigit(t)
  {
    if ParseDecimal(t).None? {
    } else if t != [] && (t[0] == '+' || t[0] == '-') {
      UnsignedHasDigit(t[1..]);
      var k :| 0 <= k < |t[1..]| && IsDigit(t[1..][k]);
      assert IsDigit(t[k + 1]);
    } else {
      UnsignedHasDigit(t);
    }
  }

  /** Every character of a token that parses is a digit, a sign or a point. */
  lemma ParsedCharset(t: string)
    ensures ParseDecimal(t).Some? ==> forall k :: 0 <= k < |t| ==> IsNumeralChar(t[k])
  {
    if ParseDecimal(t).None? {
    } else if t != [] && (t[0] == '+' || t[0] == '-') {
      UnsignedCharset(t[1..]);
      forall k | 1 <= k < |t|
        ensures IsNumeralChar(t[k])
      {
        assert t[k] == t[1..][k - 1];
      }
    } else {
      UnsignedCharset(t);
    }
  }

  /** Deleting separators only removes characters: whatever is left was in the token. */
  lemma StripKeepsOnly(s: string)
    ensures forall k :: 0 <= k < |StripSeparators(s)| ==> StripSeparators(s)[k] in s
  {
    var t := StripSeparators(s);
    StripKeepsOthers(s);
    forall k | 0 <= k < |t|
      ensures t[k] in s
    {
      assert t[k] in multiset(t);
    }
  }

  /**
    A token with no digit at all is missing: the empty cell, a cell made only
    of separators, "-", "N/A" and the like.
  */
  lemma NoDigitIsMissing(s: string)
    requires !HasDigit(s)
    ensures ParseFloat(s) == None
  {
    var t := StripSeparators(s);
    StripKeepsOnly(s);
    assert !HasDigit(t);
    ParsedHasDigit(t);
  }

  /** A token holding a character other than a digit, sign, point or separator is missing. */
  lemma ForeignCharIsMissing(s: string, i: nat)
    requires i < |s| && !IsNumeralChar(s[i]) && s[i] != Separator
    ensures ParseFloat(s) == None
  {
    var t := StripSeparators(s);
    StripKeepsOthers(s);
    assert multiset(s)[s[i]] > 0;
    assert s[i] in t;
    ParsedCharset(t);
  }

  /** The empty cell, a cell of separators only and a lone dash all read as missing. */
  lemma BlankCellsAreMissing()
    ensures ParseFloat("") == None
    ensures ParseFloat(",,,") == None
    ensures ParseFloat("-") == None
  {
    NoDigitIsMissing("");
    assert !IsDigit(","[0]);
    NoDigitIsMissing(",,,");
    assert !IsDigit("-"[0]);
    NoDigitIsMissing("-");
  }

  /** Text reads as missing. */
  lemma TextCellIsMissing()
    ensures ParseFloat("N/A") == None
  {
    ForeignCharIsMissing("N/A", 0);
  }

  lemma UnsignedTwoPoints(t: string, i: nat, j: nat)
    requires i < j < |t| && t[i] == '.' && t[j] == '.'
    ensures ParseUnsigned(t) == None
  {
    var k := FirstDot(t);
    assert k <= i;
    assert t[k + 1..][j - k - 1] == '.';
  }

  /** A comma-free token with two decimal points does not parse. */
  lemma TwoPointsNeverParse(t: string, i: nat, j: nat)
    requires i < j < |t| && t[i] == '.' && t[j] == '.'
    ensures ParseDecimal(t) == None
  {
    if t[0] == '+' || t[0] == '-' {
      UnsignedTwoPoints(t[1..], i - 1, j - 1);
    } else {
      UnsignedTwoPoints(t, i, j);
    }
  }

  /** A number with two points reads as missing. */
  lemma TwoPointCellIsMissing()
    ensures ParseFloat("1.2.3") == None
  {
    StripNoSeparator("1.2.3");
    TwoPointsNeverParse("1.2.3", 1, 3);
  }

  // ---------------------------------------------------------------------------
  // Round trip with numbers grouped by a separator every three digits
  // ---------------------------------------------------------------------------

  /** The decimal digits of a whole number, without leading zeros. */
  function NatDigits(n: nat): (ds: string)
    ensures |ds| > 0 && AllDigits(ds)
    ensures WholeValue(ds) == n
  {
    if n < 10 then [DigitChar(n)]
    else
      var ds := NatDigits(n / 10) + [DigitChar(n % 10)];
      assert ds[..|ds| - 1] == NatDigits(n / 10);
      ds
  }

  /** A digit string with a separator before every group of three, counted from the right. */
  function Grouped(ds: string): (g: string)
    ensures StripSeparators(g) == StripSeparators(ds)
    decreases |ds|
  {
    if |ds| <= 3 then ds
    else
      var hi, lo := ds[..|ds| - 3], ds[|ds| - 3..];
      StripInserted(Grouped(hi), lo);
      StripAppend(Grouped(hi), lo);
      StripAppend(hi, lo);
      assert hi + lo == ds;
      Grouped(hi) + [Separator] + lo
  }

  /** The signed value of a sign, a whole part and fraction digits. */
  function Signed(negative: bool, whole: nat, frac: string): real
    requires AllDigits(frac)
  {
    var v := whole as real + FractionValue(frac);
    if negative then -v else v
  }

  /** A number with a separator every three digits: sign, grouped whole part, then a point and the fraction digits. */
  function Display(negative: bool, whole: nat, frac: string): string
    requires AllDigits(frac)
  {
    (if negative then "-" else "") + Grouped(NatDigits(whole)) + (if frac == [] then "" else "." + frac)
  }

  lemma {:induction false} FirstDotAt(u: string, k: nat)
    requires k <= |u|
    requires forall j :: 0 <= j < k ==> u[j] != '.'
    requires k < |u| ==> u[k] == '.'
    ensures FirstDot(u) == k
    decreases k
  {
    if k > 0 {
      FirstDotAt(u[1..], k - 1);
    }
  }

  lemma StripAround(sign: string, g: string, tail: string, ds: string)
    requires Separator !in sign && Separator !in ds && Separator !in tail
    requires StripSeparators(g) == ds
    ensures StripSeparators(sign + g + tail) == sign + (ds + tail)
  {
    calc {
      StripSeparators(sign + g + tail);
    == { StripAppend(sign + g, tail); }
      StripSeparators(sign + g) + StripSeparators(tail);
    == { StripAppend(sign, g); }
      StripSeparators(sign) + ds + StripSeparators(tail);
    == { StripNoSeparator(sign); StripNoSeparator(tail); }
      sign + ds + tail;
    }
    assert sign + ds + tail == sign + (ds + tail);
  }

  lemma FractionTailHasNoSeparator(frac: string)
    requires AllDigits(frac)
    ensures Separator !in (if frac == [] then "" else "." + frac)
  {
    var tail: string := if frac == [] then "" else "." + frac;
    if frac != [] {
      assert forall k :: 0 <= k < |tail| ==> tail[k] == '.' || IsDigit(tail[k]);
    }
  }

  lemma StripDisplay(negative: bool, whole: nat, frac: string)
    requires AllDigits(frac)
    ensures StripSeparators(Display(negative, whole, frac))
         == (if negative then "-" else "") + (NatDigits(whole) + (if frac == [] then "" else "." + frac))
  {
    var ds := NatDigits(whole);
    assert Separator !in ds;
    FractionTailHasNoSeparator(frac);
    StripNoSeparator(ds);
    StripAround(if negative then "-" else "", Grouped(ds), if frac == [] then "" else "." + frac, ds);
  }

  // ---------------------------------------------------------------------------
  // The grammar, both ways
  // ---------------------------------------------------------------------------

  /** An optional sign: nothing, '+' or '-'. */
  predicate IsSign(sign: string) {
    sign == "" || sign == "+" || sign == "-"
  }

  /** `unsigned` spelled out: whole digits, then optionally a point and fraction digits. */
  function UnsignedToken(ds: string, point: bool, frac: string): string {
    ds + (if point then "." + frac else "")
  }

  /** `token` spelled out: a sign followed by `unsigned`. */
  function PlainToken(sign: string, ds: string, point: bool, frac: string): string {
    sign + UnsignedToken(ds, point, frac)
  }

  /**
    The side conditions of the grammar: digits only, at least one digit, and
    fraction digits only after a point.
  */
  predicate IsPlain(sign: string, ds: string, point: bool, frac: string) {
    IsSign(sign) && AllDigits(ds) && AllDigits(frac) && (point || frac == []) && |ds| + |frac| > 0
  }

  /** The number a plain token denotes. */
  function PlainValue(sign: string, ds: string, frac: string): real
    requires AllDigits(ds) && AllDigits(frac)
  {
    if sign == "-" then -Magnitude(ds, frac) else Magnitude(ds, frac)
  }

  lemma ParseUnsignedAt(u: string, k: nat, ds: string, frac: string)
    requires FirstDot(u) == k && u[..k] == ds
    requires (if k < |u| then u[k + 1..] else []) == frac
    requires |ds| + |frac| > 0 && AllDigits(ds) && AllDigits(frac)
    ensures ParseUnsigned(u) == Some(Magnitude(ds, frac))
  {
  }

  /** A spelled-out `unsigned` reads as its magnitude. */
  lemma ParseUnsignedToken(ds: string, point: bool, frac: string)
    requires IsPlain("", ds, point, frac)
    ensures ParseUnsigned(UnsignedToken(ds, point, frac)) == Some(Magnitude(ds, frac))
  {
    var u := UnsignedToken(ds, point, frac);
    assert forall j :: 0 <= j < |ds| ==> u[j] == ds[j];
    FirstDotAt(u, |ds|);
    assert u[..|ds|] == ds;
    assert (if |ds| < |u| then u[|ds| + 1..] else []) == frac by {
      if point {
        assert u[|ds| + 1..] == frac;
      }
    }
    ParseUnsignedAt(u, |ds|, ds, frac);
  }

  /** A spelled-out `unsigned` never starts with a sign. */
  lemma UnsignedTokenUnsigned(ds: string, point: bool, frac: string)
    requires IsPlain("", ds, point, frac)
    ensures |UnsignedToken(ds, point, frac)| > 0
    ensures UnsignedToken(ds, point, frac)[0] != '+' && UnsignedToken(ds, point, frac)[0] != '-'
  {
    var u := UnsignedToken(ds, point, frac);
    if |ds| > 0 {
      assert u[0] == ds[0];
    } else {
      assert u[0] == '.';
    }
  }

  /** A sign in front of an `unsigned` that reads as `m` gives `m` or its negation. */
  lemma {:induction false} ParseSignedUnsigned(t: string, c: char, u: string, m: real)
    requires c == '+' || c == '-'
    requires t == [c] + u && ParseUnsigned(u) == Some(m)
    ensures ParseDecimal(t) == Some(if c == '-' then -m else m)
  {
    assert t != [] && t[0] == c;
    assert ParseUnsigned(t[1..]) == Some(m) by {
      assert t[1..] == u;
    }
  }

  /** An `unsigned` that does not start with a sign is read as it is. */
  lemma ParseBareUnsigned(u: string, m: real)
    requires u != [] && u[0] != '+' && u[0] != '-'
    requires ParseUnsigned(u) == Some(m)
    ensures ParseDecimal(u) == Some(m)
  {
  }

  lemma {:induction false} ParseUnsignedPlainToken(ds: string, point: bool, frac: string)
    requires IsPlain("", ds, point, frac)
    ensures ParseDecimal(PlainToken("", ds, point, frac)) == Some(Magnitude(ds, frac))
  {
    var u := UnsignedToken(ds, point, frac);
    ParseUnsignedToken(ds, point, frac);
    UnsignedTokenUnsigned(ds, point, frac);
    assert PlainToken("", ds, point, frac) == u;
    ParseBareUnsigned(u, Magnitude(ds, frac));
  }

  lemma {:induction false} ParseSignedPlainToken(c: char, ds: string, point: bool, frac: string)
    requires c == '+' || c == '-'
    requires IsPlain("", ds, point, frac)
    ensures ParseDecimal([c] + UnsignedToken(ds, point, frac))
         == Some(if c == '-' then -Magnitude(ds, frac) else Magnitude(ds, frac))
  {
    var u := UnsignedToken(ds, point, frac);
    ParseUnsignedToken(ds, point, frac);
    ParseSignedUnsigned([c] + u, c, u, Magnitude(ds, frac));
  }

  /** A token spelled out by the grammar reads as the number it denotes. */
  lemma ParsePlainToken(sign: string, ds: string, point: bool, frac: string)
    requires IsPlain(sign, ds, point, frac)
    ensures ParseDecimal(PlainToken(sign, ds, point, frac)) == Some(PlainValue(sign, ds, frac))
  {
    if sign == "" {
      ParseUnsignedPlainToken(ds, point, frac);
    } else if sign == "-" {
      ParseSignedPlainToken('-', ds, point, frac);
    } else {
      ParseSignedPlainToken('+', ds, point, frac);
    }
  }

  /** The pieces `ParseUnsigned` splits a token into, when it reads. */
  lemma {:induction false} UnsignedParts(u: string, ds: string, frac: string)
    requires ParseUnsigned(u).Some?
    requires ds == u[..FirstDot(u)]
    requires frac == if FirstDot(u) < |u| then u[FirstDot(u) + 1..] else []
    ensures |ds| + |frac| > 0 && AllDigits(ds) && AllDigits(frac)
    ensures ParseUnsigned(u).value == Magnitude(ds, frac)
  {
  }

  /** An `unsigned` is its whole digits, then its point and fraction digits if it has a point. */
  lemma {:induction false} UnsignedSplit(u: string, ds: string, point: bool, frac: string)
    requires point == (FirstDot(u) < |u|) && ds == u[..FirstDot(u)]
    requires frac == if point then u[FirstDot(u) + 1..] else []
    ensures u == UnsignedToken(ds, point, frac)
  {
    var i := FirstDot(u);
    if point {
      assert u[i..] == "." + frac by {
        assert u[i] == '.';
        assert u[i..] == [u[i]] + u[i + 1..];
      }
      assert u == u[..i] + u[i..];
    } else {
      assert u[..i] == u;
    }
  }

  /** Every `unsigned` that reads is spelled out by the grammar. */
  lemma {:induction false} UnsignedIsPlain(u: string) returns (ds: string, point: bool, frac: string)
    requires ParseUnsigned(u).Some?
    ensures IsPlain("", ds, point, frac) && u == UnsignedToken(ds, point, frac)
    ensures ParseUnsigned(u).value == Magnitude(ds, frac)
  {
    var i := FirstDot(u);
    ds, point := u[..i], i < |u|;
    frac := if point then u[i + 1..] else [];
    UnsignedParts(u, ds, frac);
    UnsignedSplit(u, ds, point, frac);
  }

  /** The sign, digits, point and fraction of a token that reads. */
  lemma {:induction false} SignedPlainOfParsed(t: string, c: char, u: string)
    returns (sign: string, ds: string, point: bool, frac: string)
    requires c == '+' || c == '-'
    requires t == [c] + u && ParseUnsigned(u).Some?
    ensures IsPlain(sign, ds, point, frac) && t == PlainToken(sign, ds, point, frac)
    ensures ParseDecimal(t).value == PlainValue(sign, ds, frac)
  {
    ds, point, frac := UnsignedIsPlain(u);
    sign := [c];
    ParseSignedUnsigned(t, c, u, Magnitude(ds, frac));
  }

  lemma {:induction false} PlainOfParsed(t: string) returns (sign: string, ds: string, point: bool, frac: string)
    requires ParseDecimal(t).Some?
    ensures IsPlain(sign, ds, point, frac) && t == PlainToken(sign, ds, point, frac)
    ensures ParseDecimal(t).value == PlainValue(sign, ds, frac)
  {
    if t != [] && (t[0] == '+' || t[0] == '-') {
      sign, ds, point, frac := SignedPlainOfParsed(t, t[0], t[1..]);
    } else {
      sign := "";
      ds, point, frac := UnsignedIsPlain(t);
    }
  }

  /** Every token that reads is spelled out by the grammar, and reads as the number it denotes. */
  lemma ParsedIsPlain(t: string)
    ensures ParseDecimal(t).Some? ==>
      exists sign, ds, point, frac ::
        && IsPlain(sign, ds, point, frac)
        && t == PlainToken(sign, ds, point, frac)
        && ParseDecimal(t).value == PlainValue(sign, ds, frac)
  {
    if ParseDecimal(t).Some? {
      var sign, ds, point, frac := PlainOfParsed(t);
    }
  }

  /** A token spelled out by the grammar holds no separator. */
  lemma PlainTokenHasNoSeparator(sign: string, ds: string, point: bool, frac: string)
    requires IsPlain(sign, ds, point, frac)
    ensures Separator !in PlainToken(sign, ds, point, frac)
  {
    assert Separator !in sign;
    assert Separator !in ds;
    FractionTailHasNoSeparator(frac);
    assert (if point then "." + frac else "") == (if frac == [] && !point then "" else "." + frac);
    if point && frac == [] {
      assert Separator !in ".";
    }
  }

  /** A plain cell, with any sign, whole part and fraction the grammar allows, reads as its value. */
  lemma ParsePlain(sign: string, ds: string, point: bool, frac: string)
    requires IsPlain(sign, ds, point, frac)
    ensures ParseFloat(PlainToken(sign, ds, point, frac)) == Some(PlainValue(sign, ds, frac))
  {
    var t := PlainToken(sign, ds, point, frac);
    assert StripSeparators(t) == t by {
      PlainTokenHasNoSeparator(sign, ds, point, frac);
      StripNoSeparator(t);
    }
    ParsePlainToken(sign, ds, point, frac);
  }

  /**
    The parser exactly: a cell reads as `v` if and only if, with its
    separators deleted, it is a token of the grammar that denotes `v`.
  */
  lemma ParseFloatIffPlain(s: string, v: real)
    ensures ParseFloat(s) == Some(v) <==>
      exists sign, ds, point, frac ::
        && IsPlain(sign, ds, point, frac)
        && StripSeparators(s) == PlainToken(sign, ds, point, frac)
        && v == PlainValue(sign, ds, frac)
  {
    var t := StripSeparators(s);
    ParsedIsPlain(t);
    if exists sign, ds, point, frac ::
        && IsPlain(sign, ds, point, frac) && t == PlainToken(sign, ds, point, frac) && v == PlainValue(sign, ds, frac)
    {
      var sign, ds, point, frac :|
        && IsPlain(sign, ds, point, frac) && t == PlainToken(sign, ds, point, frac) && v == PlainValue(sign, ds, frac);
      ParsePlainToken(sign, ds, point, frac);
    }
  }

  /** A sign anywhere but at the front makes a comma-free token missing. */
  lemma InnerSignNeverParses(t: string, i: nat)
    requires 0 < i < |t| && (t[i] == '+' || t[i] == '-')
    ensures ParseDecimal(t) == None
  {
    if t[0] == '+' || t[0] == '-' {
      if ParseUnsigned(t[1..]).Some? {
        UnsignedCharset(t[1..]);
      }
    } else if ParseUnsigned(t).Some? {
      UnsignedCharset(t);
    }
  }

  /** A number with a separator every three digits parses back to exactly that number. */
  lemma DisplayRoundTrip(negative: bool, whole: nat, frac: string)
    requires AllDigits(frac)
    ensures ParseFloat(Display(negative, whole, frac)) == Some(Signed(negative, whole, frac))
  {
    var sign: string := if negative then "-" else "";
    var ds := NatDigits(whole);
    StripDisplay(negative, whole, frac);
    assert StripSeparators(Display(negative, whole, frac)) == PlainToken(sign, ds, frac != [], frac);
    ParsePlainToken(sign, ds, frac != [], frac);
    assert Signed(negative, whole, frac) == PlainValue(sign, ds, frac);
  }

  /** A literal cell that spells out a sign, digits and a fraction reads as their value. */
  lemma PlainCell(text: string, sign: string, ds: string, point: bool, frac: string, value: real)
    requires IsPlain(sign, ds, point, frac)
    requires text == PlainToken(sign, ds, point, frac) && value == PlainValue(sign, ds, frac)
    ensures ParseFloat(text) == Some(value)
  {
    ParsePlain(sign, ds, point, frac);
  }

  /** The example the parser's own documentation gives. */
  lemma GroupedExample()
    ensures ParseFloat("1,234.56") == Some(1234.56)
    ensures ParseFloat("1,234.56") == ParseFloat("1234.56")
  {
    StripInserted("1", "234.56");
    assert "1" + [Separator] + "234.56" == "1,234.56";
    assert "1" + "234.56" == "1234.56";
    PlainExample();
  }

  lemma PlainExample()
    ensures ParseFloat("1234.56") == Some(1234.56)
  {
    assert WholeValue("1") == 1 by {
      assert "1"[..0] == "";
    }
    assert WholeValue("12") == 12 by {
      assert "12"[..1] == "1";
    }
    assert WholeValue("123") == 123 by {
      assert "123"[..2] == "12";
    }
    assert WholeValue("1234") == 1234 by {
      assert "1234"[..3] == "123";
    }
    assert FractionValue("56") == 0.56 by {
      assert "56"[1..] == "6";
    }
    PlainCell("1234.56", "", "1234", true, "56", 1234.56);
  }

  /** The cells of two example quotes: A last traded at 108, up 10.2%; B at 49, down 3.9%. */
  lemma GainerChangeCell()
    ensures ParseFloat("10.2") == Some(10.2)
  {
    assert WholeValue("10") == 10 by {
      assert "10"[..1] == "1";
    }
    PlainCell("10.2", "", "10", true, "2", 10.2);
  }

  lemma LoserChangeCell()
    ensures ParseFloat("-3.9") == Some(-3.9)
  {
    PlainCell("-3.9", "-", "3", true, "9", -3.9);
  }

  lemma GainerPriceCell()
    ensures ParseFloat("108") == Some(108.0)
  {
    assert WholeValue("108") == 108 by {
      assert "108"[..2] == "10";
      assert "10"[..1] == "1";
    }
    PlainCell("108", "", "108", false, "", 108.0);
  }

  lemma LoserPriceCell()
    ensures ParseFloat("49") == Some(49.0)
  {
    assert WholeValue("49") == 49 by {
      assert "49"[..1] == "4";
    }
    PlainCell("49", "", "49", false, "", 49.0);
  }

  /** An explicit plus sign is accepted. */
  lemma PlusSignCell()
    ensures ParseFloat("+5") == Some(5.0)
  {
    assert Magnitude("5", "") == 5.0 by {
      assert "5"[..0] == "";
    }
    PlainCell("+5", "+", "5", false, "", 5.0);
  }

  /** The whole part may be left out when fraction digits follow the point. */
  lemma PointFirstCell()
    ensures ParseFloat(".5") == Some(0.5)
    ensures ParseFloat("-.5") == Some(-0.5)
  {
    assert Magnitude("", "5") == 0.5 by {
      assert "5"[1..] == "";
    }
    PlainCell(".5", "", "", true, "5", 0.5);
    PlainCell("-.5", "-", "", true, "5", -0.5);
  }

  /** A point with no fraction digits after it is accepted. */
  lemma TrailingPointCell()
    ensures ParseFloat("5.") == Some(5.0)
  {
    assert Magnitude("5", "") == 5.0 by {
      assert "5"[..0] == "";
    }
    PlainCell("5.", "", "5", true, "", 5.0);
  }

  /** A range such as "1-2" is not a number. */
  lemma RangeIsMissing()
    ensures ParseFloat("1-2") == None
  {
    StripNoSeparator("1-2");
    InnerSignNeverParses("1-2", 1);
  }
}
