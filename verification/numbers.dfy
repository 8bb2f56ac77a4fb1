/** Numeric text: the decimal spellings `pd.to_numeric(..., errors='coerce')`
    reads, the comma rewrite of the dashboard's claim values, and the
    `".0"` removal that turns a stored year into its label. */
module Numbers {
  import opened Common

  /** Index of the first '.', or |s| when there is none. */
  function FirstDot(s: string): (k: nat)
    ensures k <= |s|
    ensures forall i :: 0 <= i < k ==> s[i] != '.'
    ensures k < |s| ==> s[k] == '.'
  {
    if s == [] then 0
    else if s[0] == '.' then 0
    else 1 + FirstDot(s[1..])
  }

  /** The value spelled by digits `whole`, a point, and digits `frac`. */
  function DecimalValue(whole: string, frac: string): (v: real)
    requires AllDigits(whole) && AllDigits(frac)
    ensures v >= 0.0
    ensures frac == "" ==> v == DigitsValue(whole) as real
  {
    if frac == "" then DigitsValue(whole) as real
    else DigitsValue(whole) as real + DigitsValue(frac) as real / Pow10(|frac|) as real
  }

  /** Digits with at most one decimal point and at least one digit:
      "12", "12.5", "12.", ".5". */
  function ParseUnsigned(s: string): (r: Option<real>)
    ensures r.Some? ==> r.value >= 0.0
  {
    var k := FirstDot(s);
    var whole := s[..k];
    var frac := if k < |s| then s[k + 1..] else "";
    if |whole| + |frac| > 0 && AllDigits(whole) && AllDigits(frac) then
      Some(DecimalValue(whole, frac))
    else None
  }

  /** The number a text cell denotes for `pd.to_numeric`, or None when it
      coerces to NaN. An optional sign precedes the digits. */
  function ParseNumber(s: string): (r: Option<real>)
    ensures r.Some? && r.value < 0.0 ==> |s| > 0 && s[0] == '-'
  {
    if |s| > 0 && (s[0] == '-' || s[0] == '+') then
      match ParseUnsigned(s[1..])
      case None => None
      case Some(v) => Some(if s[0] == '-' then -v else v)
    else ParseUnsigned(s)
  }

  /** Without a leading sign the text is read as unsigned. */
  lemma ParseNumberUnsigned(s: string)
    requires s == [] || (s[0] != '-' && s[0] != '+')
    ensures ParseNumber(s) == ParseUnsigned(s)
  {
  }

  /** A leading minus negates what follows it. */
  lemma ParseNumberMinus(t: string)
    requires ParseUnsigned(t).Some?
    ensures ParseNumber("-" + t) == Some(-ParseUnsigned(t).value)
  {
    assert ("-" + t)[1..] == t;
  }

  /** A leading plus changes nothing. */
  lemma ParseNumberPlus(t: string)
    requires ParseUnsigned(t).Some?
    ensures ParseNumber("+" + t) == ParseUnsigned(t)
  {
    assert ("+" + t)[1..] == t;
  }

  /** The text `sign whole`, or `sign whole . frac` when it has a point. */
  function NumberText(sign: string, whole: string, dot: bool, frac: string): string
  {
    sign + UnsignedText(whole, dot, frac)
  }

  /** The spellings read as numbers: an optional sign, digits, and an optional
      point followed by digits, with at least one digit in all. */
  predicate NumberShape(sign: string, whole: string, dot: bool, frac: string)
  {
    (sign == "" || sign == "-" || sign == "+") && AllDigits(whole) && AllDigits(frac) &&
    |whole| + |frac| > 0 && (!dot ==> frac == "")
  }

  /** The value such a text spells. */
  function SignedValue(sign: string, whole: string, frac: string): real
    requires AllDigits(whole) && AllDigits(frac)
  {
    if sign == "-" then -DecimalValue(whole, frac) else DecimalValue(whole, frac)
  }

  /** Every text of that shape is read as the value it spells. */
  lemma ParseNumberRendering(sign: string, whole: string, dot: bool, frac: string)
    requires NumberShape(sign, whole, dot, frac)
    ensures ParseNumber(NumberText(sign, whole, dot, frac)) == Some(SignedValue(sign, whole, frac))
  {
    var u := UnsignedText(whole, dot, frac);
    ParseUnsignedText(whole, dot, frac);
    if sign == "-" {
      ParseNumberMinus(u);
    } else if sign == "+" {
      ParseNumberPlus(u);
    } else {
      assert sign + u == u;
      UnsignedTextHasNoSign(whole, dot, frac);
      ParseNumberUnsigned(u);
    }
  }

  function UnsignedText(whole: string, dot: bool, frac: string): string
  {
    whole + (if dot then "." + frac else "")
  }

  lemma ParseUnsignedText(whole: string, dot: bool, frac: string)
    requires NumberShape("", whole, dot, frac)
    ensures ParseUnsigned(UnsignedText(whole, dot, frac)) == Some(DecimalValue(whole, frac))
  {
    if dot {
      assert UnsignedText(whole, dot, frac) == whole + "." + frac;
      ParseUnsignedRendering(whole, frac);
    } else {
      assert UnsignedText(whole, dot, frac) == whole;
      assert '.' !in whole by {
        forall j | 0 <= j < |whole| ensures whole[j] != '.' { assert IsDigit(whole[j]); }
      }
      ParseUnsignedNoDot(whole);
    }
  }

  lemma UnsignedTextHasNoSign(whole: string, dot: bool, frac: string)
    requires NumberShape("", whole, dot, frac)
    ensures var u := UnsignedText(whole, dot, frac); u != [] && u[0] != '-' && u[0] != '+'
  {
    var u := UnsignedText(whole, dot, frac);
    if whole != [] {
      assert u[0] == whole[0] && IsDigit(whole[0]);
    } else {
      assert dot && u[0] == '.';
    }
  }

  /** The pieces of a text the unsigned reader accepts. */
  lemma UnsignedPieces(u: string) returns (whole: string, dot: bool, frac: string)
    requires ParseUnsigned(u).Some?
    ensures NumberShape("", whole, dot, frac) && u == UnsignedText(whole, dot, frac)
    ensures ParseUnsigned(u).value == DecimalValue(whole, frac)
  {
    var k := FirstDot(u);
    whole := u[..k];
    dot := k < |u|;
    frac := if dot then u[k + 1..] else "";
    if dot {
      assert u == u[..k] + [u[k]] + u[k + 1..];
    } else {
      assert u == whole;
    }
  }

  /** Conversely, every text read as a number has that shape, and its value
      is the one the text spells; any other text becomes NaN. */
  lemma ParseNumberAccepts(s: string)
    requires ParseNumber(s).Some?
    ensures exists sign, whole, dot, frac :: NumberShape(sign, whole, dot, frac) &&
              s == NumberText(sign, whole, dot, frac) &&
              ParseNumber(s).value == SignedValue(sign, whole, frac)
  {
    var sign, whole, dot, frac;
    if |s| > 0 && (s[0] == '-' || s[0] == '+') {
      sign, whole, dot, frac := SignedPieces(s);
    } else {
      ParseNumberUnsigned(s);
      whole, dot, frac := UnsignedPieces(s);
      sign := "";
      assert s == NumberText(sign, whole, dot, frac);
    }
  }

  lemma SignedPieces(s: string) returns (sign: string, whole: string, dot: bool, frac: string)
    requires ParseNumber(s).Some? && |s| > 0 && (s[0] == '-' || s[0] == '+')
    ensures NumberShape(sign, whole, dot, frac) && s == NumberText(sign, whole, dot, frac)
    ensures ParseNumber(s).value == SignedValue(sign, whole, frac)
  {
    ParseNumberSigned(s);
    whole, dot, frac := UnsignedPieces(s[1..]);
    sign := if s[0] == '-' then "-" else "+";
    assert s == sign + s[1..] by {
      assert s == [s[0]] + s[1..];
      assert [s[0]] == sign;
    }
  }

  lemma ParseNumberSigned(s: string)
    requires ParseNumber(s).Some? && |s| > 0 && (s[0] == '-' || s[0] == '+')
    ensures ParseUnsigned(s[1..]).Some?
    ensures ParseNumber(s).value == if s[0] == '-' then -ParseUnsigned(s[1..]).value else ParseUnsigned(s[1..]).value
  {
  }

  /** A rendering `whole.frac` reads back as the value it spells. */
  lemma ParseDecimalRendering(whole: string, frac: string)
    requires AllDigits(whole) && AllDigits(frac) && |whole| + |frac| > 0
    ensures ParseNumber(whole + "." + frac) == Some(DecimalValue(whole, frac))
  {
    ParseUnsignedRendering(whole, frac);
    RenderingUnsigned(whole, frac);
    ParseNumberUnsigned(whole + "." + frac);
  }

  lemma RenderingUnsigned(whole: string, frac: string)
    requires AllDigits(whole)
    ensures var s := whole + "." + frac; s[0] != '-' && s[0] != '+'
  {
    var s := whole + "." + frac;
    if whole != [] {
      assert s[0] == whole[0];
    } else {
      assert s[0] == '.';
    }
  }

  lemma ParseUnsignedRendering(whole: string, frac: string)
    requires AllDigits(whole) && AllDigits(frac) && |whole| + |frac| > 0
    ensures ParseUnsigned(whole + "." + frac) == Some(DecimalValue(whole, frac))
  {
    var s := whole + "." + frac;
    DotAfterDigits(whole, frac);
    assert s[..|whole|] == whole && s[|whole| + 1..] == frac;
  }

  lemma {:induction false} DotAfterDigits(whole: string, frac: string)
    requires AllDigits(whole)
    ensures FirstDot(whole + "." + frac) == |whole|
  {
    if whole != [] {
      assert (whole + "." + frac)[1..] == whole[1..] + "." + frac;
      DotAfterDigits(whole[1..], frac);
    }
  }

  /** Text without a point is read as a plain digit string, or not at all. */
  lemma ParseUnsignedNoDot(s: string)
    requires '.' !in s
    ensures ParseUnsigned(s) == if |s| > 0 && AllDigits(s) then Some(DigitsValue(s) as real) else None
  {
    var k := FirstDot(s);
    assert forall i | 0 <= i < |s| :: s[i] != '.';
    assert s[..k] == s;
  }

  /** Text with a comma and no point is not a number. */
  lemma CommaWithoutPointIsNaN(s: string)
    requires ',' in s && '.' !in s
    ensures ParseNumber(s) == None
  {
    var i :| 0 <= i < |s| && s[i] == ',';
    ParseUnsignedNoDot(s);
    assert !IsDigit(s[i]);
    if s[0] == '-' || s[0] == '+' {
      var t := s[1..];
      assert '.' !in t by {
        forall j | 0 <= j < |t| ensures t[j] != '.' { assert t[j] == s[j + 1]; }
      }
      ParseUnsignedNoDot(t);
      assert t[i - 1] == ',';
    }
  }

  /** Text with two points is not a number. */
  lemma TwoPointsIsNaN(s: string, i: nat, j: nat)
    requires i < j < |s| && s[i] == '.' && s[j] == '.'
    ensures ParseNumber(s) == None
  {
    if |s| > 0 && (s[0] == '-' || s[0] == '+') {
      assert i > 0;
      var t := s[1..];
      assert t[i - 1] == '.' && t[j - 1] == '.';
      TwoPointsUnsigned(t, i - 1, j - 1);
    } else {
      TwoPointsUnsigned(s, i, j);
    }
  }

  lemma TwoPointsUnsigned(s: string, i: nat, j: nat)
    requires i < j < |s| && s[i] == '.' && s[j] == '.'
    ensures ParseUnsigned(s) == None
  {
    var k := FirstDot(s);
    assert k <= i;
    var frac := s[k + 1..];
    assert frac[j - k - 1] == '.';
    assert !IsDigit(frac[j - k - 1]);
  }

  /** `str(n)` of a natural number reads back as n. */
  lemma ParseShowNat(n: nat)
    ensures ParseNumber(ShowNat(n)) == Some(n as real)
  {
    var s := ShowNat(n);
    assert '.' !in s by {
      forall j | 0 <= j < |s| ensures s[j] != '.' { assert IsDigit(s[j]); }
    }
    ParseUnsignedNoDot(s);
    assert s[0] != '-' && s[0] != '+' by { assert IsDigit(s[0]); }
    ParseNumberUnsigned(s);
  }

  // ------------------------------------------------------------ claim values

  /** `str.replace(',', '.', regex=False)`: every comma becomes a point. */
  function ReplaceCommas(s: string): (r: string)
    ensures |r| == |s|
    ensures forall i :: 0 <= i < |s| ==> r[i] == (if s[i] == ',' then '.' else s[i])
  {
    seq(|s|, i requires 0 <= i < |s| => if s[i] == ',' then '.' else s[i])
  }

  /** The dashboard's claim value (`app.py` load step): commas become points,
      the text is parsed, and anything that does not parse becomes 0. */
  function AppClaimValue(text: string): (v: real)
    ensures ParseNumber(ReplaceCommas(text)).Some? ==> v == ParseNumber(ReplaceCommas(text)).value
    ensures ParseNumber(ReplaceCommas(text)).None? ==> v == 0.0
  {
    match ParseNumber(ReplaceCommas(text))
    case Some(x) => x
    case None => 0.0
  }

  /** Text without a comma is read exactly as the batch step reads it. */
  lemma AppClaimWithoutComma(text: string)
    ensures ',' !in text ==> ReplaceCommas(text) == text
  {
  }

  /** A Brazilian-formatted amount with a thousands point does not survive:
      "1.234,56" becomes "1.234.56", which is not a number, hence 0. */
  lemma AppClaimThousandsPointIsZero()
    ensures AppClaimValue("1.234,56") == 0.0
  {
    var t := ReplaceCommas("1.234,56");
    assert t[1] == '.' && t[5] == '.';
    TwoPointsIsNaN(t, 1, 5);
  }

  /** Without the thousands point the comma is read as the decimal separator. */
  lemma AppClaimDecimalComma()
    ensures AppClaimValue("1234,56") == 1234.56
  {
    var t := ReplaceCommas("1234,56");
    assert t == "1234" + "." + "56";
    ParseDecimalRendering("1234", "56");
    DecimalValueExample();
  }

  lemma DecimalValueExample()
    ensures DecimalValue("1234", "56") == 1234.56
  {
    assert "1234"[..3] == "123" && "123"[..2] == "12" && "12"[..1] == "1";
    assert DigitsValue("1234") == 1234;
    assert "56"[..1] == "5";
    assert DigitsValue("56") == 56;
    assert Pow10(2) == 100;
  }

  // ------------------------------------------------------------- year labels

  /** `str.replace('.0', '', regex=False)`: every occurrence, scanning left to
      right without overlap. */
  function RemoveDotZero(s: string): (r: string)
    ensures |r| <= |s|
  {
    if |s| >= 2 && s[0] == '.' && s[1] == '0' then RemoveDotZero(s[2..])
    else if s == [] then []
    else [s[0]] + RemoveDotZero(s[1..])
  }

  lemma {:induction false} RemoveDotZeroWithoutDot(s: string)
    requires '.' !in s
    ensures RemoveDotZero(s) == s
    ensures RemoveDotZero(s + ".0") == s
  {
    if s != [] {
      var t := s[1..];
      assert '.' !in t by {
        forall j | 0 <= j < |t| ensures t[j] != '.' { assert t[j] == s[j + 1]; }
      }
      RemoveDotZeroWithoutDot(t);
      assert s[0] != '.' by { assert s[0] in s; }
      assert RemoveDotZero(s) == [s[0]] + RemoveDotZero(t);
      assert s == [s[0]] + t;
      var u := s + ".0";
      assert u[0] == s[0] && u[1..] == t + ".0";
      assert RemoveDotZero(u) == [s[0]] + RemoveDotZero(t + ".0");
    } else {
      assert ".0"[2..] == [];
    }
  }

  /** `str(y)` for a year, with a sign when negative. */
  function ShowInt(y: int): (s: string)
    ensures '.' !in s
  {
    if y >= 0 then ShowNat(y) else "-" + ShowNat(-y)
  }

  /** What `astype(str)` yields for a stored year: the column holds floats
      ("2024.0") when some year is missing, integers ("2024") otherwise, and a
      missing year is NaN ("nan"). */
  function StoredYearText(year: Option<int>, floatColumn: bool): string
  {
    match year
    case None => "nan"
    case Some(y) => ShowInt(y) + (if floatColumn then ".0" else "")
  }

  /** The year label of `app.py`: the stored text with every ".0" removed. */
  function YearLabel(text: string): string
  {
    RemoveDotZero(text)
  }

  /** The label does not depend on whether pandas stored the years as floats:
      it is `str(year)`, or "nan" for a missing year. */
  lemma YearLabelIgnoresStorage(year: Option<int>, floatColumn: bool)
    ensures YearLabel(StoredYearText(year, floatColumn)) == StoredYearText(year, false)
    ensures year.None? ==> YearLabel(StoredYearText(year, floatColumn)) == "nan"
  {
    match year {
      case None =>
        assert '.' !in "nan";
        RemoveDotZeroWithoutDot("nan");
      case Some(y) =>
        RemoveDotZeroWithoutDot(ShowInt(y));
        assert ShowInt(y) + "" == ShowInt(y);
    }
  }
}
