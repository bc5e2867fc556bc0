/** Decimal numbers as they are written, what they stand for, and that strtod reads exactly them. */
module Numeral {
  import opened Text
  import opened Number

  const DIGITS := "0123456789"

  function Place(c: char): (d: nat)
    requires IsDigit(c)
    ensures d < 10 && DIGITS[d] == c
  {
    c as int - '0' as int
  }

  /** The digits in front of the point. */
  function Whole(s: string): nat
    requires AllDigits(s)
  {
    if s == "" then 0 else 10 * Whole(s[..|s| - 1]) + Place(s[|s| - 1])
  }

  /** The digits behind the point. */
  function Parts(s: string): real
    requires AllDigits(s)
  {
    if s == "" then 0.0 else (Place(s[0]) as real + Parts(s[1..])) / 10.0
  }

  function TenTo(e: int): real
    decreases if e < 0 then -e else e
  {
    if e == 0 then 1.0 else if e > 0 then 10.0 * TenTo(e - 1) else TenTo(e + 1) / 10.0
  }

  function Magnitude(whole: string, behind: string, e: int): real
    requires AllDigits(whole) && AllDigits(behind)
  {
    (Whole(whole) as real + Parts(behind)) * TenTo(e)
  }

  datatype Power = Power(mark: char, sign: string, digits: string)
  {
    predicate Valid() {
      (mark == 'e' || mark == 'E') && (sign == "" || sign == "+" || sign == "-") && digits != "" && AllDigits(digits)
    }

    function Spelling(): string {
      [mark] + (sign + digits)
    }

    function Meaning(): (e: int)
      requires Valid()
    {
      var e: int := Whole(digits);
      if sign == "-" then -e else e
    }
  }

  /** A sign, digits, a point with digits, an exponent; all may be missing, but not all digits. */
  datatype Numeral = Numeral(sign: string, whole: string, fraction: Option<string>, power: Option<Power>)
  {
    function Behind(): string {
      if fraction.None? then "" else fraction.value
    }

    predicate Valid() {
      && (sign == "" || sign == "+" || sign == "-")
      && AllDigits(whole) && AllDigits(Behind()) && whole + Behind() != ""
      && (power.Some? ==> power.value.Valid())
    }

    function Spelling(): string {
      sign + (whole + ((if fraction.None? then "" else "." + fraction.value)
                       + if power.None? then "" else power.value.Spelling()))
    }

    function Meaning(): real
      requires Valid()
    {
      var magnitude := Magnitude(whole, Behind(), if power.None? then 0 else power.value.Meaning());
      if sign == "-" then -magnitude else magnitude
    }

    /** The text behind the number does not go on as the number could. */
    predicate Ends(rest: string) {
      && (rest != "" ==> !IsDigit(rest[0]))
      && (power.None? ==> !BeginsPower(rest) && (fraction.None? && rest != "" ==> rest[0] != '.'))
    }
  }

  predicate BeginsPower(s: string) {
    && |s| >= 2 && (s[0] == 'e' || s[0] == 'E')
    && (IsDigit(s[1]) || (|s| >= 3 && (s[1] == '+' || s[1] == '-') && IsDigit(s[2])))
  }

  // ----- Values -----

  lemma {:induction false} WholeIs(s: string)
    requires AllDigits(s)
    ensures NatValue(s) == Whole(s)
  {
    if s != "" { WholeIs(s[..|s| - 1]); }
  }

  lemma {:induction false} ScaleIs(x: real, e: int)
    ensures Scale(x, e) == x * TenTo(e)
    decreases if e < 0 then -e else e
  {
    if e > 0 {
      ScaleIs(x, e - 1);
      assert (x * TenTo(e - 1)) * 10.0 == x * (10.0 * TenTo(e - 1));
    } else if e < 0 {
      ScaleIs(x, e + 1);
      assert (x * TenTo(e + 1)) / 10.0 == x * (TenTo(e + 1) / 10.0);
    }
  }

  lemma ScaleStep(x: real, e: int)
    ensures Scale(x, 0) == x && Scale(x, e + 1) == Scale(x, e) * 10.0 && Scale(x, e - 1) == Scale(x, e) / 10.0
  {
  }

  lemma {:induction false} ScaleAdds(x: real, a: int, b: int)
    ensures Scale(x, a + b) == Scale(Scale(x, a), b)
    decreases if b < 0 then -b else b
  {
    hide Scale;
    ScaleStep(Scale(x, a), b);
    if b > 0 {
      ScaleAdds(x, a, b - 1);
      ScaleStep(x, a + b - 1);
      ScaleStep(Scale(x, a), b - 1);
    } else if b < 0 {
      ScaleAdds(x, a, b + 1);
      ScaleStep(x, a + b + 1);
      ScaleStep(Scale(x, a), b + 1);
    }
  }

  /** Digits behind the point count as digits in front of it, scaled down. */
  lemma {:induction false} PointMoves(whole: string, behind: string)
    requires AllDigits(whole) && AllDigits(behind)
    ensures Scale(Whole(whole + behind) as real, -|behind|) == Whole(whole) as real + Parts(behind)
    decreases |behind|
  {
    if behind == "" {
      assert whole + behind == whole;
    } else {
      var longer, rest := whole + behind[..1], behind[1..];
      assert longer[..|longer| - 1] == whole && longer + rest == whole + behind;
      PointMoves(longer, rest);
    }
  }

  lemma MagnitudeIs(whole: string, behind: string, e: int)
    requires AllDigits(whole) && AllDigits(behind)
    ensures Scale(NatValue(whole + behind) as real, e - |behind|) == Magnitude(whole, behind, e)
  {
    hide Scale, TenTo, Parts, Whole, NatValue;
    var x := Whole(whole + behind) as real;
    WholeIs(whole + behind);
    ScaleAdds(x, -|behind|, e);
    PointMoves(whole, behind);
    ScaleIs(Whole(whole) as real + Parts(behind), e);
    assert -|behind| + e == e - |behind|;
  }

  // ----- Reading -----

  function PowerText(n: Numeral): string {
    if n.power.None? then "" else n.power.value.Spelling()
  }

  /** The text of a number and what follows it, part by part. */
  lemma SpellingSplits(n: Numeral, rest: string)
    ensures var tail := PowerText(n) + rest;
            n.Spelling() + rest == n.sign + (n.whole + (if n.fraction.None? then tail else "." + (n.Behind() + tail)))
  {
    hide PowerText;
    var power := PowerText(n);
    var point := if n.fraction.None? then "" else "." + n.fraction.value;
    assert n.Spelling() == n.sign + (n.whole + (point + power)) by { PowerTextIs(n); }
    hide Numeral.Spelling;
    Assoc(n.sign, n.whole + (point + power), rest);
    Assoc(n.whole, point + power, rest);
    Assoc(point, power, rest);
    Assoc(".", n.Behind(), power + rest);
    assert "" + (power + rest) == power + rest;
  }

  lemma PowerTextIs(n: Numeral)
    ensures PowerText(n) == if n.power.None? then "" else n.power.value.Spelling()
  {
  }

  lemma DigitsEnd(digits: string, rest: string)
    requires AllDigits(digits) && (rest != "" ==> !IsDigit(rest[0]))
    ensures SpanLength(digits + rest, IsDigit) == |digits|
    ensures (digits + rest)[..|digits|] == digits && (digits + rest)[|digits|..] == rest
  {
    SpanLengthIs(digits + rest, IsDigit, |digits|);
  }

  lemma PowerReads(p: Power, rest: string)
    requires p.Valid() && (rest != "" ==> !IsDigit(rest[0]))
    ensures Exponent(p.Spelling() + rest) == (|p.Spelling()|, p.Meaning())
  {
    hide SpanLength, NatValue, Whole;
    var body := p.sign + (p.digits + rest);
    Assoc(p.sign, p.digits, rest);
    Assoc([p.mark], p.sign + p.digits, rest);
    DigitsEnd(p.digits, rest);
    WholeIs(p.digits);
    PowerUnfolds(p.mark, p.sign, p.digits + rest, |p.digits|);
  }

  lemma PowerUnfolds(mark: char, sign: string, t: string, n: nat)
    requires (mark == 'e' || mark == 'E') && (sign == "" || sign == "+" || sign == "-")
    requires n == SpanLength(t, IsDigit) && n > 0
    ensures var e: int := NatValue(t[..n]);
            Exponent([mark] + (sign + t)) == (1 + |sign| + n, if sign == "-" then -e else e)
  {
    hide SpanLength, NatValue;
    var s := [mark] + (sign + t);
    assert IsDigit(t[0]) by { SpanStarts(t); }
    assert s[1 + |sign|..] == t;
    assert s[1] == (sign + t)[0];
  }

  lemma SpanStarts(t: string)
    requires SpanLength(t, IsDigit) > 0
    ensures t != "" && IsDigit(t[0])
  {
  }

  lemma NoPowerReads(rest: string)
    requires !BeginsPower(rest)
    ensures Exponent(rest) == (0, 0)
  {
    if rest != "" && IsExponentMark(rest[0]) {
      var start := if 1 < |rest| && IsSign(rest[1]) then 2 else 1;
      assert start < |rest| ==> rest[start..][0] == rest[start];
    }
  }

  /** The exponent, or what stands where it could. */
  lemma TailReads(n: Numeral, rest: string)
    requires n.Valid() && n.Ends(rest)
    ensures var tail := PowerText(n) + rest;
            && Exponent(tail) == (|PowerText(n)|, if n.power.None? then 0 else n.power.value.Meaning())
            && (tail != "" ==> !IsDigit(tail[0])) && (n.fraction.None? && tail != "" ==> tail[0] != '.')
  {
    hide Exponent, Power.Meaning;
    if n.power.None? {
      assert "" + rest == rest;
      NoPowerReads(rest);
    } else {
      PowerReads(n.power.value, rest);
    }
  }

  lemma BodyReads(n: Numeral, body: string, tail: string)
    requires n.Valid() && body == n.whole + (if n.fraction.None? then tail else "." + (n.Behind() + tail))
    requires (tail != "" ==> !IsDigit(tail[0])) && (n.fraction.None? && tail != "" ==> tail[0] != '.')
    ensures body != "" && !IsSign(body[0]) && SpanLength(body, IsDigit) == |n.whole| && body[..|n.whole|] == n.whole
    ensures (|n.whole| < |body| && body[|n.whole|] == '.') == n.fraction.Some?
    ensures n.fraction.None? ==> body[|n.whole|..] == tail
    ensures n.fraction.Some? ==>
      var behind := body[|n.whole| + 1..];
      SpanLength(behind, IsDigit) == |n.Behind()| && behind[..|n.Behind()|] == n.Behind()
      && body[|n.whole| + 1 + |n.Behind()|..] == tail
  {
    if n.fraction.None? {
      DigitsEnd(n.whole, tail);
    } else {
      DigitsEnd(n.whole, "." + (n.Behind() + tail));
      DigitsEnd(n.Behind(), tail);
      assert body[|n.whole| + 1..] == n.Behind() + tail;
    }
  }

  /** strtod in terms of where its parts end. */
  lemma StrtodUnfolds(sign: string, body: string, w: nat, f: nat, point: bool)
    requires (sign == "" && body != "" && !IsSign(body[0])) || (|sign| == 1 && IsSign(sign[0]))
    requires w == SpanLength(body, IsDigit) && point == (w < |body| && body[w] == '.')
    requires f == if point then SpanLength(body[w + 1..], IsDigit) else 0
    requires w + f > 0
    ensures var m := if point then w + 1 + f else w;
            var digits := body[..w] + (if point then body[w + 1..][..f] else "");
            var exponent := Exponent(body[m..]);
            var magnitude := Scale(NatValue(digits) as real, exponent.1 - f);
            Strtod(sign + body)
            == Conversion(|sign| + m + exponent.0, if sign == "-" then -magnitude else magnitude)
  {
    hide SpanLength, Exponent, Scale, NatValue;
    assert (sign + body)[|sign|..] == body;
    assert sign == "" ==> sign + body == body;
    assert sign != "" ==> (sign + body)[0] == sign[0] && (sign == "-" <==> sign[0] == '-');
  }

  /** strtod takes the whole number and gives what it stands for. */
  lemma StrtodReads(n: Numeral, rest: string)
    requires n.Valid() && n.Ends(rest)
    ensures Strtod(n.Spelling() + rest) == Conversion(|n.Spelling()|, n.Meaning())
  {
    hide Strtod, SpanLength, Exponent, Scale, NatValue, Magnitude, Power.Meaning, PowerText, Numeral.Spelling;
    var tail := PowerText(n) + rest;
    TailReads(n, rest);
    var body := n.whole + (if n.fraction.None? then tail else "." + (n.Behind() + tail));
    SpellingSplits(n, rest);
    SpellingLength(n);
    BodyReads(n, body, tail);
    StrtodUnfolds(n.sign, body, |n.whole|, |n.Behind()|, n.fraction.Some?);
    MagnitudeIs(n.whole, n.Behind(), if n.power.None? then 0 else n.power.value.Meaning());
  }

  lemma SpellingLength(n: Numeral)
    ensures |n.Spelling()|
         == |n.sign| + |n.whole| + (if n.fraction.None? then 0 else 1 + |n.Behind()|) + |PowerText(n)|
  {
    hide Power.Spelling;
  }

  // ----- Finding -----

  lemma PowerParts(s: string) returns (p: Power, rest: string)
    requires Exponent(s).0 > 0
    ensures p.Valid() && s == p.Spelling() + rest && Exponent(s).0 == |s| - |rest| && (rest != "" ==> !IsDigit(rest[0]))
  {
    hide NatValue, SpanLength;
    var start := if IsSign(s[1]) then 2 else 1;
    var n := SpanLength(s[start..], IsDigit);
    p, rest := Power(s[0], s[1..start], s[start..][..n]), s[start + n..];
    InThreeParts(s, start, n);
    assert rest != "" ==> rest[0] == s[start..][n];
    assert start == 2 ==> s[1..start] == [s[1]];
  }

  lemma InThreeParts(s: string, i: nat, n: nat)
    requires 1 <= i && i + n <= |s|
    ensures s == [s[0]] + (s[1..i] + s[i..][..n]) + s[i + n..]
  {
  }

  lemma PowerFollows(s: string)
    requires BeginsPower(s)
    ensures Exponent(s).0 > 0
  {
    var start := if IsSign(s[1]) then 2 else 1;
    assert s[start..][0] == s[start];
  }

  /** An exponent, or nothing, and no digit behind it. */
  lemma PowerFinds(s: string) returns (p: Option<Power>, rest: string)
    ensures p.Some? ==> p.value.Valid()
    ensures s == (if p.None? then "" else p.value.Spelling()) + rest && Exponent(s).0 == |s| - |rest|
    ensures if p.None? then !BeginsPower(rest) && rest == s else rest != "" ==> !IsDigit(rest[0])
  {
    if BeginsPower(s) { PowerFollows(s); }
    if Exponent(s).0 == 0 {
      p, rest := None, s;
    } else {
      var power;
      power, rest := PowerParts(s);
      p := Some(power);
    }
  }

  /** Whatever strtod takes is a number, taken as far as it goes. */
  lemma StrtodFinds(s: string) returns (n: Numeral, rest: string)
    requires Strtod(s).consumed > 0
    ensures n.Valid() && s == n.Spelling() + rest && n.Ends(rest)
    ensures Strtod(s) == Conversion(|n.Spelling()|, n.Meaning())
  {
    hide Exponent, Scale, NatValue, Magnitude, Power.Meaning, Power.Spelling, SpanLength, StrtodParts;
    var signed := if s != "" && IsSign(s[0]) then 1 else 0;
    var sign, body := s[..signed], s[signed..];
    StrtodNeedsDigits(s);
    n, rest := BodyFinds(sign, body);
    assert s == sign + body;
    StrtodReads(n, rest);
  }

  /** Digits on at least one side of the point. */
  predicate StrtodParts(body: string) {
    var w := SpanLength(body, IsDigit);
    w > 0 || (body != "" && body[0] == '.' && SpanLength(body[1..], IsDigit) > 0)
  }

  lemma StrtodNeedsDigits(s: string)
    requires Strtod(s).consumed > 0
    ensures StrtodParts(s[if s != "" && IsSign(s[0]) then 1 else 0..])
  {
    hide Exponent, Scale, NatValue;
  }

  lemma BodyFinds(sign: string, body: string) returns (n: Numeral, rest: string)
    requires (sign == "" || sign == "+" || sign == "-") && StrtodParts(body)
    ensures n.Valid() && sign + body == n.Spelling() + rest && n.Ends(rest)
  {
    hide SpanLength, Numeral.Spelling, Numeral.Ends, Numeral.Valid;
    var w := SpanLength(body, IsDigit);
    if w < |body| && body[w] == '.' {
      n, rest := PointFinds(sign, body, w);
    } else {
      n, rest := PlainFinds(sign, body, w);
    }
  }

  lemma PlainFinds(sign: string, body: string, w: nat) returns (n: Numeral, rest: string)
    requires (sign == "" || sign == "+" || sign == "-") && w == SpanLength(body, IsDigit) && w > 0
    requires w < |body| ==> body[w] != '.'
    ensures n.Valid() && sign + body == n.Spelling() + rest && n.Ends(rest)
  {
    hide SpanLength, Exponent, Numeral.Spelling, Power.Spelling, Power.Valid, BeginsPower;
    var power, r := PowerFinds(body[w..]);
    n, rest := Numeral(sign, body[..w], None, power), r;
    assert PowerText(n) + rest == body[w..];
    assert body == body[..w] + body[w..];
    assert body[w..] != "" ==> body[w..][0] == body[w];
    assert n.whole + n.Behind() == n.whole != "";
    SpellingSplits(n, rest);
  }

  lemma CutAt(body: string, w: nat, f: nat)
    requires w < |body| && body[w] == '.' && w + 1 + f <= |body|
    ensures var behind := body[w + 1..];
            && body == body[..w] + ("." + (behind[..f] + behind[f..]))
            && (behind[f..] != "" ==> behind[f..][0] == behind[f])
  {
    assert body[w + 1..][..f] + body[w + 1..][f..] == body[w + 1..];
  }

  lemma PointFinds(sign: string, body: string, w: nat) returns (n: Numeral, rest: string)
    requires (sign == "" || sign == "+" || sign == "-") && w == SpanLength(body, IsDigit)
    requires w < |body| && body[w] == '.' && w + SpanLength(body[w + 1..], IsDigit) > 0
    ensures n.Valid() && sign + body == n.Spelling() + rest && n.Ends(rest)
  {
    hide SpanLength, Exponent, Numeral.Spelling, Power.Spelling, Power.Valid, BeginsPower;
    var behind := body[w + 1..];
    var f := SpanLength(behind, IsDigit);
    var power, r := PowerFinds(behind[f..]);
    n, rest := Numeral(sign, body[..w], Some(behind[..f]), power), r;
    assert PowerText(n) + rest == behind[f..];
    CutAt(body, w, f);
    assert |n.whole + n.Behind()| == w + f;
    SpellingSplits(n, rest);
    hide PowerText, AllDigits;
    assert n.Ends(rest);
  }
}
