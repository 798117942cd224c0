/** `RgbaColor`: four 8-bit channels, and the text it prints as. */
module RgbaColor {
  import opened Common

  datatype RgbaColor = RgbaColor(r: U8, g: U8, b: U8, a: U8)

  /** `RgbaColor::new`. */
  function New(r: U8, g: U8, b: U8, a: U8): (c: RgbaColor)
    ensures c.r == r && c.g == g && c.b == b && c.a == a
  {
    RgbaColor(r, g, b, a)
  }

  /** `RgbaColor::array`: the channels in red, green, blue, alpha order. */
  function Array(c: RgbaColor): (arr: seq<U8>)
    ensures |arr| == 4
    ensures New(arr[0], arr[1], arr[2], arr[3]) == c
  {
    [c.r, c.g, c.b, c.a]
  }

  /** `new` followed by `array` gives back the channels in argument order. */
  lemma ArrayOfNew(r: U8, g: U8, b: U8, a: U8)
    ensures Array(New(r, g, b, a)) == [r, g, b, a]
  {
  }

  predicate IsDigit(ch: char) { '0' <= ch <= '9' }

  function DigitChar(d: nat): (ch: char)
    requires d < 10
    ensures IsDigit(ch)
  {
    ['0', '1', '2', '3', '4', '5', '6', '7', '8', '9'][d]
  }

  function DigitValue(ch: char): (d: nat)
    requires IsDigit(ch)
    ensures d < 10
  {
    (ch as int) - ('0' as int)
  }

  /** The decimal text `{}` prints for an unsigned integer. */
  function Decimal(n: nat): (s: string)
    ensures |s| >= 1
    ensures forall i :: 0 <= i < |s| ==> IsDigit(s[i])
  {
    if n < 10 then [DigitChar(n)] else Decimal(n / 10) + [DigitChar(n % 10)]
  }

  /** The number a string of digits spells. */
  function DigitsValue(s: string): nat
    requires forall i :: 0 <= i < |s| ==> IsDigit(s[i])
  {
    if s == [] then 0 else DigitsValue(s[..|s| - 1]) * 10 + DigitValue(s[|s| - 1])
  }

  /** How many digits `s` starts with. */
  function LeadingDigits(s: string): (n: nat)
    ensures n <= |s|
    ensures forall i :: 0 <= i < n ==> IsDigit(s[i])
    ensures n < |s| ==> !IsDigit(s[n])
  {
    if s == [] || !IsDigit(s[0]) then 0 else 1 + LeadingDigits(s[1..])
  }

  /** Read a decimal number off the front of `s`. */
  function ReadNumber(s: string): Option<(nat, string)>
  {
    var n := LeadingDigits(s);
    if n == 0 then None else Some((DigitsValue(s[..n]), s[n..]))
  }

  /** Consume `lit` off the front of `s`. */
  function Expect(s: string, lit: string): (r: Option<string>)
    ensures r.Some? <==> |lit| <= |s| && s[..|lit|] == lit
    ensures r.Some? ==> lit + r.value == s
  {
    if |lit| <= |s| && s[..|lit|] == lit then Some(s[|lit|..]) else None
  }

  lemma {:induction false} DecimalValue(n: nat)
    ensures DigitsValue(Decimal(n)) == n
  {
    if n >= 10 {
      DecimalValue(n / 10);
      var s := Decimal(n);
      assert s[..|s| - 1] == Decimal(n / 10);
    }
  }

  lemma {:induction false} LeadingDigitsOfPrefix(d: string, t: string)
    requires forall i :: 0 <= i < |d| ==> IsDigit(d[i])
    requires t == [] || !IsDigit(t[0])
    ensures LeadingDigits(d + t) == |d|
  {
    if d != [] {
      assert (d + t)[1..] == d[1..] + t;
      LeadingDigitsOfPrefix(d[1..], t);
    }
  }

  /** The decimal text reads back as its number, leaving what followed it. */
  lemma ReadDecimal(n: nat, t: string)
    requires t == [] || !IsDigit(t[0])
    ensures ReadNumber(Decimal(n) + t) == Some((n, t))
  {
    var d := Decimal(n);
    LeadingDigitsOfPrefix(d, t);
    assert (d + t)[..|d|] == d;
    assert (d + t)[|d|..] == t;
    DecimalValue(n);
  }

  /** `Debug`: `RGBA(r, g, b, a)` with the channels in decimal. */
  function Debug(c: RgbaColor): (s: string)
    ensures |s| >= 15 && s[..5] == "RGBA(" && s[|s| - 1] == ')'
  {
    "RGBA(" + Decimal(c.r) + ", " + Decimal(c.g) + ", " + Decimal(c.b) + ", " + Decimal(c.a) + ")"
  }

  /** A worked example of the `Debug` text. */
  lemma DebugExample()
    ensures Debug(New(255, 128, 0, 7)) == "RGBA(255, 128, 0, 7)"
  {
    assert Decimal(255) == "255" by {
      assert Decimal(2) == "2";
      assert Decimal(25) == "25";
    }
    assert Decimal(128) == "128" by {
      assert Decimal(1) == "1";
      assert Decimal(12) == "12";
    }
    assert Decimal(0) == "0" && Decimal(7) == "7";
    assert "RGBA(" + "255" + ", " + "128" + ", " + "0" + ", " + "7" + ")" == "RGBA(255, 128, 0, 7)";
  }

  /** `Display`: whatever `Debug` prints. */
  function Display(c: RgbaColor): (s: string)
    ensures s == Debug(c)
  {
    Debug(c)
  }

  /** Read one channel followed by `sep`. */
  function ReadChannel(s: string, sep: string): Option<(U8, string)>
  {
    match ReadNumber(s)
    case None => None
    case Some((v, rest)) =>
      if v < 256 then
        match Expect(rest, sep)
        case None => None
        case Some(rest') => Some((v, rest'))
      else None
  }

  /** Read back the text `Debug` prints. */
  function ParseDebug(s: string): Option<RgbaColor>
  {
    match Expect(s, "RGBA(")
    case None => None
    case Some(s0) =>
      match ReadChannel(s0, ", ")
      case None => None
      case Some((r, s1)) =>
        match ReadChannel(s1, ", ")
        case None => None
        case Some((g, s2)) =>
          match ReadChannel(s2, ", ")
          case None => None
          case Some((b, s3)) =>
            match ReadChannel(s3, ")")
            case None => None
            case Some((a, s4)) => if s4 == [] then Some(RgbaColor(r, g, b, a)) else None
  }

  lemma ReadChannelDecimal(v: U8, sep: string, t: string)
    requires |sep| >= 1 && !IsDigit(sep[0])
    ensures ReadChannel(Decimal(v) + (sep + t), sep) == Some((v, t))
  {
    ReadDecimal(v, sep + t);
    assert (sep + t)[..|sep|] == sep;
  }

  lemma DebugShape(open: string, r: string, sep: string, g: string, b: string, a: string, close: string)
    ensures open + r + sep + g + sep + b + sep + a + close
         == open + (r + (sep + (g + (sep + (b + (sep + (a + (close + []))))))))
  {
  }

  /** `ParseDebug` succeeds when each of its five steps does. */
  lemma ParseDebugSteps(s: string, s0: string, s1: string, s2: string, s3: string, c: RgbaColor)
    requires Expect(s, "RGBA(") == Some(s0)
    requires ReadChannel(s0, ", ") == Some((c.r, s1))
    requires ReadChannel(s1, ", ") == Some((c.g, s2))
    requires ReadChannel(s2, ", ") == Some((c.b, s3))
    requires ReadChannel(s3, ")") == Some((c.a, []))
    ensures ParseDebug(s) == Some(c)
  {
  }

  /** `Debug` text determines the colour: reading it back gives the colour. */
  lemma {:induction false} ParseDebugInverse(c: RgbaColor)
    ensures ParseDebug(Debug(c)) == Some(c)
  {
    var tail3 := Decimal(c.a) + (")" + []);
    var tail2 := Decimal(c.b) + (", " + tail3);
    var tail1 := Decimal(c.g) + (", " + tail2);
    var tail0 := Decimal(c.r) + (", " + tail1);
    var s := Debug(c);
    DebugShape("RGBA(", Decimal(c.r), ", ", Decimal(c.g), Decimal(c.b), Decimal(c.a), ")");
    assert s == "RGBA(" + tail0;
    assert Expect(s, "RGBA(") == Some(tail0);
    ReadChannelDecimal(c.r, ", ", tail1);
    ReadChannelDecimal(c.g, ", ", tail2);
    ReadChannelDecimal(c.b, ", ", tail3);
    ReadChannelDecimal(c.a, ")", []);
    ParseDebugSteps(s, tail0, tail1, tail2, tail3, c);
  }

  /** Different colours print differently, under `Debug` and `Display` alike. */
  lemma DebugInjective(c1: RgbaColor, c2: RgbaColor)
    requires Debug(c1) == Debug(c2) || Display(c1) == Display(c2)
    ensures c1 == c2
  {
    ParseDebugInverse(c1);
    ParseDebugInverse(c2);
  }
}
