/** Which texts are numbers: the grammar of section 6 of RFC 8259, and the decimal form of `strtod`. */
module JsonNumbers {
  import opened Bytes
  import opened JsonTree
  import opened JsonParse
  import opened JsonRoundTrip

  datatype Exponent = NoExponent | Exponent(letter: byte, sign: seq<byte>, digits: seq<byte>)

  /** The parts of a decimal number. */
  datatype Decimal = Decimal(sign: seq<byte>, whole: seq<byte>, point: bool, fraction: seq<byte>, exponent: Exponent)

  ghost predicate AllDigits(s: seq<byte>) { forall i :: 0 <= i < |s| ==> 48 <= s[i] <= 57 }

  predicate IsSign(s: seq<byte>) { s == [] || s == [43] || s == [45] }

  ghost predicate IsExponent(e: Exponent) {
    e.Exponent? ==> (e.letter == 101 || e.letter == 69) && IsSign(e.sign) && AllDigits(e.digits) && e.digits != []
  }

  /** What `strtod` takes for a decimal number. */
  ghost predicate IsDecimal(d: Decimal) {
    && IsSign(d.sign) && AllDigits(d.whole) && AllDigits(d.fraction) && IsExponent(d.exponent)
    && (!d.point ==> d.fraction == []) && (d.whole != [] || d.fraction != [])
  }

  /** The numbers of section 6 of RFC 8259. */
  ghost predicate IsJsonNumber(d: Decimal) {
    && IsDecimal(d) && d.sign != [43] && d.whole != [] && (d.whole[0] == 48 ==> |d.whole| == 1)
    && (d.point ==> d.fraction != [])
  }

  function ExponentText(e: Exponent): seq<byte> {
    if e.NoExponent? then [] else [e.letter] + (e.sign + e.digits)
  }

  function FractionText(d: Decimal): seq<byte> { if d.point then [46] + d.fraction else [] }

  function Spelled(d: Decimal): seq<byte> {
    d.sign + (d.whole + (FractionText(d) + ExponentText(d.exponent)))
  }

  /** The next byte, if there is one, cannot belong to a number. */
  predicate Ends(rest: seq<byte>) { rest == [] || !IsNumberChar(rest[0]) }

  lemma {:induction false} DigitsOfRun(ds: seq<byte>, t: seq<byte>)
    requires AllDigits(ds) && (t == [] || !IsDigit(t[0]))
    ensures Digits(ds + t) == |ds|
  {
    if ds == [] {
      assert ds + t == t;
    } else {
      TailOfConcat(ds, t);
      DigitsOfRun(ds[1..], t);
    }
  }

  lemma SignOfText(sign: seq<byte>, t: seq<byte>)
    requires IsSign(sign) && (t == [] || (t[0] != 43 && t[0] != 45))
    ensures SignLength(sign + t) == |sign|
  {
  }

  lemma ExponentIsTaken(e: Exponent, rest: seq<byte>)
    requires IsExponent(e) && Ends(rest)
    ensures ExponentLength(ExponentText(e) + rest) == |ExponentText(e)|
  {
    if e.NoExponent? {
      assert ExponentText(e) + rest == rest;
    } else {
      var s, t := ExponentText(e) + rest, e.digits + rest;
      Assoc(e.sign, e.digits, rest);
      Assoc([e.letter], e.sign + e.digits, rest);
      assert s == [e.letter] + (e.sign + t);
      CutConcat([e.letter], e.sign + t);
      CutConcat(e.sign, t);
      SignOfText(e.sign, t);
      DigitsOfRun(e.digits, rest);
      assert s[1 + |e.sign|..] == s[1..][|e.sign|..];
      hide Digits, SignLength;
    }
  }

  lemma FractionIsTaken(d: Decimal, tail: seq<byte>)
    requires IsDecimal(d) && (tail == [] || (!IsDigit(tail[0]) && tail[0] != 46))
    ensures var f := FractionText(d) + tail;
      (if f != [] && f[0] == DOT then 1 + Digits(f[1..]) else 0) == |FractionText(d)|
  {
    if d.point {
      Assoc([46], d.fraction, tail);
      CutConcat([46], d.fraction + tail);
      DigitsOfRun(d.fraction, tail);
    } else {
      assert FractionText(d) + tail == tail;
    }
    hide Digits;
  }

  /** A number is taken whole before any byte that cannot belong to one. */
  lemma SpelledIsTaken(d: Decimal, rest: seq<byte>)
    requires IsDecimal(d) && Ends(rest)
    ensures StrtodLength(Spelled(d) + rest) == |Spelled(d)|
  {
    hide StrtodLength, Digits, SignLength, ExponentLength, Spelled;
    var e := ExponentText(d.exponent) + rest;
    var f := FractionText(d) + e;
    var w := d.whole + f;
    var s := d.sign + w;
    SpelledApart(d, rest);
    HeadsOfParts(d, rest);
    hide FractionText, ExponentText;
    ExponentIsTaken(d.exponent, rest);
    FractionIsTaken(d, e);
    DigitsOfRun(d.whole, f);
    SignOfText(d.sign, w);
    CutConcat(d.sign, w);
    CutConcat(d.whole, f);
    CutConcat(FractionText(d), e);
    TakenByParts(s, |d.sign|, |d.whole|, |FractionText(d)|);
  }

  /** How the parts behind a part begin. */
  lemma HeadsOfParts(d: Decimal, rest: seq<byte>)
    requires IsDecimal(d) && Ends(rest)
    ensures var e := ExponentText(d.exponent) + rest;
      var f := FractionText(d) + e;
      var w := d.whole + f;
      && (e == [] || (!IsDigit(e[0]) && e[0] != 46)) && (f == [] || !IsDigit(f[0]))
      && (w == [] || (w[0] != 43 && w[0] != 45))
      && |Spelled(d)| == |d.sign| + |d.whole| + |FractionText(d)| + |ExponentText(d.exponent)|
      && (d.whole == [] ==> |FractionText(d)| > 1)
  {
  }

  lemma SpelledApart(d: Decimal, rest: seq<byte>)
    ensures Spelled(d) + rest == d.sign + (d.whole + (FractionText(d) + (ExponentText(d.exponent) + rest)))
  {
    hide FractionText, ExponentText;
    Assoc(FractionText(d), ExponentText(d.exponent), rest);
    Assoc(d.whole, FractionText(d) + ExponentText(d.exponent), rest);
    Assoc(d.sign, d.whole + (FractionText(d) + ExponentText(d.exponent)), rest);
  }

  lemma TakenByParts(s: seq<byte>, sign: nat, whole: nat, fraction: nat)
    requires SignLength(s) == sign <= |s| && Digits(s[sign..]) == whole && sign + whole + fraction <= |s|
    requires var f := s[sign..][whole..]; (if f != [] && f[0] == DOT then 1 + Digits(f[1..]) else 0) == fraction
    ensures StrtodLength(s) ==
      if whole == 0 && fraction <= 1 then 0
      else sign + whole + fraction + ExponentLength(s[sign..][whole..][fraction..])
  {
    hide Digits, SignLength, ExponentLength;
    var p := sign + whole;
    assert s[sign..][whole..] == s[p..] && s[p..][fraction..] == s[p + fraction..];
    if p < |s| {
      assert s[p..][0] == s[p] && s[p..][1..] == s[p + 1..];
    }
  }

  lemma {:induction false} DigitsAreDigits(s: seq<byte>)
    ensures AllDigits(s[..Digits(s)])
  {
    if s != [] && IsDigit(s[0]) {
      DigitsAreDigits(s[1..]);
      assert s[..Digits(s)] == [s[0]] + s[1..][..Digits(s[1..])];
    }
  }

  lemma SignIsSign(s: seq<byte>)
    ensures IsSign(s[..SignLength(s)])
  {
  }

  lemma ExponentShape(s: seq<byte>)
    ensures ExponentLength(s) > 0 ==> s != [] && (s[0] == 101 || s[0] == 69)
    ensures ExponentLength(s) > 0 ==>
      var k := SignLength(s[1..]); Digits(s[1 + k..]) > 0 && ExponentLength(s) == 1 + k + Digits(s[1 + k..])
  {
    hide Digits, SignLength;
  }

  lemma ExponentTaken(s: seq<byte>) returns (e: Exponent)
    ensures IsExponent(e) && ExponentText(e) == s[..ExponentLength(s)]
  {
    ExponentShape(s);
    hide ExponentLength, Digits, SignLength;
    var n := ExponentLength(s);
    e := NoExponent;
    if n > 0 {
      var k := SignLength(s[1..]);
      SignIsSign(s[1..]);
      DigitsAreDigits(s[1 + k..]);
      var sign, digits := s[1..][..k], s[1 + k..][..n - 1 - k];
      e := Exponent(s[0], sign, digits);
      ExponentJoined(s, k, n);
    }
  }

  lemma ExponentJoined(s: seq<byte>, k: nat, n: nat)
    requires 1 + k <= n <= |s|
    ensures [s[0]] + (s[1..][..k] + s[1 + k..][..n - 1 - k]) == s[..n]
  {
  }

  /** Where the parts of a number end. */
  lemma StrtodShape(s: seq<byte>) returns (k: nat, p: nat, q: nat)
    requires StrtodLength(s) > 0
    ensures k == SignLength(s) <= p == k + Digits(s[k..]) <= q <= |s|
    ensures StrtodLength(s) == q + ExponentLength(s[q..]) && (p > k || q > p + 1)
    ensures q > p ==> p < |s| && s[p] == DOT && q == p + 1 + Digits(s[p + 1..])
  {
    hide Digits, SignLength, ExponentLength;
    k := SignLength(s);
    p := k + Digits(s[k..]);
    q := if p < |s| && s[p] == DOT then p + 1 + Digits(s[p + 1..]) else p;
  }

  lemma FractionTaken(s: seq<byte>, p: nat, q: nat) returns (f: seq<byte>)
    requires p <= q <= |s| && (q > p ==> p < |s| && s[p] == DOT && q == p + 1 + Digits(s[p + 1..]))
    ensures AllDigits(f) && (q > p ==> [46] + f == s[p..q]) && (q == p ==> f == []) && (q > p + 1 ==> f != [])
  {
    f := [];
    if q > p {
      DigitsAreDigits(s[p + 1..]);
      f := s[p + 1..][..q - p - 1];
      hide Digits;
      assert s[p..q] == [s[p]] + s[p + 1..q];
    }
  }

  /** What `strtod` takes is a decimal number. */
  lemma TakenIsSpelled(s: seq<byte>) returns (d: Decimal)
    requires StrtodLength(s) > 0
    ensures IsDecimal(d) && Spelled(d) == s[..StrtodLength(s)]
  {
    hide Digits, SignLength, ExponentLength, StrtodLength, ExponentText;
    var n := StrtodLength(s);
    var k, p, q := StrtodShape(s);
    SignIsSign(s);
    DigitsAreDigits(s[k..]);
    var e := ExponentTaken(s[q..]);
    var f := FractionTaken(s, p, q);
    assert s[k..][..p - k] == s[k..p];
    d := Decimal(s[..k], s[k..p], q > p, f, e);
    assert FractionText(d) == s[p..q];
    assert s[q..][..n - q] == s[q..n];
    Joined(s, k, p, q, n);
  }

  lemma Joined(s: seq<byte>, a: nat, b: nat, c: nat, n: nat)
    requires a <= b <= c <= n <= |s|
    ensures s[..a] + (s[a..b] + (s[b..c] + s[c..n])) == s[..n]
  {
  }

  ghost predicate IsSpelled(l: seq<byte>) { exists d :: IsDecimal(d) && Spelled(d) == l }

  lemma SpelledInNumberChars(d: Decimal)
    requires IsDecimal(d)
    ensures forall i :: 0 <= i < |Spelled(d)| ==> IsNumberChar(Spelled(d)[i])
  {
    assert forall i :: 0 <= i < |FractionText(d)| ==> IsNumberChar(FractionText(d)[i]);
    assert forall i :: 0 <= i < |ExponentText(d.exponent)| ==> IsNumberChar(ExponentText(d.exponent)[i]);
    hide FractionText, ExponentText;
  }

  /** The numbers of the model are the decimal numbers of up to 63 bytes that start with a minus or a digit. */
  lemma NumberTextIsDecimal(l: seq<byte>)
    ensures IsNumberText(l) <==> 0 < |l| <= 63 && (l[0] == 45 || 48 <= l[0] <= 57) && IsSpelled(l)
  {
    if IsNumberText(l) {
      var d := TakenIsSpelled(l);
      assert l[..|l|] == l;
    }
    if IsSpelled(l) {
      var d :| IsDecimal(d) && Spelled(d) == l;
      SpelledIsTaken(d, []);
      assert l + [] == l;
      SpelledInNumberChars(d);
    }
    hide StrtodLength, Spelled, IsDecimal;
  }

  /** Every number of section 6 of RFC 8259 of up to 63 bytes is read whole. */
  lemma JsonNumberIsRead(d: Decimal, rest: seq<byte>)
    requires IsJsonNumber(d) && |Spelled(d)| <= 63 && Terminated(rest) && Ends(rest)
    ensures IsNumberText(Spelled(d)) && ParseNumber(Spelled(d) + rest) == Got(Number(Spelled(d)), rest)
  {
    var l := Spelled(d);
    SpelledStart(d);
    assert IsSpelled(l);
    NumberTextIsDecimal(l);
    NumberRoundTrip(l, rest);
    hide IsNumberText, Spelled, ParseNumber;
  }

  lemma SpelledStart(d: Decimal)
    requires IsJsonNumber(d)
    ensures Spelled(d) != [] && (Spelled(d)[0] == 45 || 48 <= Spelled(d)[0] <= 57)
  {
    assert d.whole[0] in d.whole;
    hide FractionText, ExponentText;
  }

  /** Whatever the number reader takes is a decimal number. */
  lemma ReadIsDecimal(s: seq<byte>)
    requires Terminated(s) && ParseNumber(s).Got?
    ensures ParseNumber(s).value.Number? && IsSpelled(ParseNumber(s).value.lexeme)
    ensures s == ParseNumber(s).value.lexeme + ParseNumber(s).rest
  {
    hide StrtodLength, NumberRun, Spelled, IsDecimal;
    var run := s[..NumberRun(s, NUMBER_LIMIT)];
    var d := TakenIsSpelled(run);
  }
}
