/** Fonts as the text renderer names them: a family, a weight and a style,
    stored as `<family>-<Weight><Style>.ttf` with the style left out when it
    is regular. */
module Font {

  /** `FontWeight`. */
  datatype FontWeight = Black | Bold | RegularWeight | Medium | Light | Thin

  /** `FontStyle`. */
  datatype FontStyle = RegularStyle | Italic

  /** `Font`: family name, weight, style and pixel size. */
  datatype Font = Font(name: string, weight: FontWeight, style: FontStyle, size: nat)

  /** `Font::new`. */
  function New(name: string, weight: FontWeight, style: FontStyle, size: nat): (f: Font)
    ensures f.name == name && f.weight == weight && f.style == style && f.size == size
  {
    Font(name, weight, style, size)
  }

  /** The `Debug` text of a weight: its variant name. */
  function WeightName(w: FontWeight): string
  {
    match w
    case Black => "Black"
    case Bold => "Bold"
    case RegularWeight => "Regular"
    case Medium => "Medium"
    case Light => "Light"
    case Thin => "Thin"
  }

  /** The style part of a file name: nothing for regular, else the `Debug`
      text of the style. */
  function StyleSuffix(s: FontStyle): string
  {
    match s
    case RegularStyle => ""
    case Italic => "Italic"
  }

  /** `Font::name`: the font's file name. */
  function FileName(f: Font): (r: string)
    ensures |r| > |f.name| + 5
    ensures r[..|f.name|] == f.name && r[|f.name|] == '-'
    ensures r[|r| - 4..] == ".ttf"
  {
    f.name + "-" + WeightName(f.weight) + StyleSuffix(f.style) + ".ttf"
  }

  /** The middle of a file name, between `<family>-` and `.ttf`. */
  lemma FileNameParts(f: Font)
    ensures FileName(f) == f.name + "-" + (WeightName(f.weight) + StyleSuffix(f.style)) + ".ttf"
  {
  }

  lemma {:induction false} MiddleDetermines(w1: FontWeight, s1: FontStyle, w2: FontWeight, s2: FontStyle)
    requires WeightName(w1) + StyleSuffix(s1) == WeightName(w2) + StyleSuffix(s2)
    ensures w1 == w2 && s1 == s2
  {
    var m := WeightName(w1) + StyleSuffix(s1);
    assert m[0] == WeightName(w1)[0] == WeightName(w2)[0];
    assert |m| == |WeightName(w1)| + |StyleSuffix(s1)| == |WeightName(w2)| + |StyleSuffix(s2)|;
  }

  /** Within one family, the file name determines weight and style: no two
      faces share a file. */
  lemma {:induction false} FileNameInjective(f1: Font, f2: Font)
    requires f1.name == f2.name
    requires FileName(f1) == FileName(f2)
    ensures f1.weight == f2.weight && f1.style == f2.style
  {
    FileNameParts(f1);
    FileNameParts(f2);
    var m1 := WeightName(f1.weight) + StyleSuffix(f1.style);
    var m2 := WeightName(f2.weight) + StyleSuffix(f2.style);
    var pre := f1.name + "-";
    assert FileName(f1) == pre + m1 + ".ttf";
    assert FileName(f2) == pre + m2 + ".ttf";
    assert |m1| == |m2|;
    assert m1 == FileName(f1)[|pre|..|pre| + |m1|];
    assert m2 == FileName(f2)[|pre|..|pre| + |m2|];
    MiddleDetermines(f1.weight, f1.style, f2.weight, f2.style);
  }

  /** A worked example: the black regular face of Roboto. */
  lemma FileNameExample()
    ensures FileName(New("Roboto", Black, RegularStyle, 12)) == "Roboto-Black.ttf"
  {
  }

  /** A worked example: the light italic face of Roboto. */
  lemma FileNameItalicExample()
    ensures FileName(New("Roboto", Light, Italic, 12)) == "Roboto-LightItalic.ttf"
  {
  }
}
