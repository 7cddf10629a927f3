/** src/theme.rs `load`: overrides read line by line from a theme file and applied, in order, over
    the compiled-in theme. The file is given as its sequence of lines. */
module ThemeLoad {
  import opened Wrappers
  import opened Numerals
  import opened Text
  import opened Themes

  /** `ErrCorrupt`, or the `ParseIntError` that `?` passes on from a failed number parse. */
  datatype LoadError = Corrupt | InvalidNumber

  /** What one line of a theme file does to the theme being built. */
  datatype LineEffect =
    | Skip
    | SetColor(field: ColorField, value: u8)
    | SetGlyph(glyph: GlyphField, symbol: char)
    | Fail(error: LoadError)

  /** A comment (a `#` in the very first column) or a blank line. */
  predicate IsIgnored(line: string)
  {
    StartsWith(line, "#") || AllWhitespace(line)
  }

  /** The value of a glyph override: a single character stands for itself, anything else must be
      a hexadecimal Unicode scalar value. */
  function GlyphValue(value: string): (r: Result<char, LoadError>)
    ensures r.Ok? ==> (|value| == 1 && r.value == value[0])
                      || (|value| != 1 && ParseHexU32(value) == Some(r.value as int))
    ensures r == Err(InvalidNumber) <==> |value| != 1 && ParseHexU32(value).None?
    ensures r == Err(Corrupt) ==> ParseHexU32(value).Some? && CharFromU32(ParseHexU32(value).value).None?
  {
    if |value| == 1 then Ok(value[0])
    else match ParseHexU32(value)
      case None => Err(InvalidNumber)
      case Some(n) =>
        match CharFromU32(n)
        case None => Err(Corrupt)
        case Some(c) => Ok(c)
  }

  /** One line of the file: skipped, an override of one field, or the error that ends the load. */
  function ParseLine(line: string): (r: LineEffect)
    ensures r.Skip? <==> IsIgnored(line)
  {
    if IsIgnored(line) then Skip
    else match SplitOnce(line, '=')
      case None => Fail(Corrupt)
      case Some((before, after)) =>
        var name := Trim(before);
        var value := Trim(after);
        if EndsWith(name, "char") then
          match GlyphFieldNamed(name)
          case None => Fail(Corrupt)
          case Some(g) =>
            match GlyphValue(value)
            case Ok(c) => SetGlyph(g, c)
            case Err(e) => Fail(e)
        else
          match ColorFieldNamed(name)
          case None => Fail(Corrupt)
          case Some(f) =>
            match ParseU8(value)
            case Some(v) => SetColor(f, v)
            case None => Fail(InvalidNumber)
  }

  /** The theme after one line that does not fail. */
  function Apply(t: Theme, e: LineEffect): Theme
    requires !e.Fail?
  {
    match e
    case Skip => t
    case SetColor(f, v) => WithColor(t, f, v)
    case SetGlyph(g, c) => WithGlyph(t, g, c)
  }

  /** What each line of the file does, line by line. */
  function Effects(lines: seq<string>): (es: seq<LineEffect>)
    ensures |es| == |lines|
    ensures forall i :: 0 <= i < |lines| ==> es[i] == ParseLine(lines[i])
  {
    seq(|lines|, i requires 0 <= i < |lines| => ParseLine(lines[i]))
  }

  /** The effects applied in order over `t`; the first failing line makes the whole load fail. */
  function ApplyEffects(t: Theme, es: seq<LineEffect>): Result<Theme, LoadError>
    decreases |es|
  {
    if |es| == 0 then Ok(t)
    else if es[0].Fail? then Err(es[0].error)
    else ApplyEffects(Apply(t, es[0]), es[1..])
  }

  /** The theme a file of `lines` describes, starting from `t`. */
  function ApplyLines(t: Theme, lines: seq<string>): Result<Theme, LoadError>
  {
    ApplyEffects(t, Effects(lines))
  }

  /** The value the last effect overriding colour field `f` gives it, if any does. */
  function LastColor(es: seq<LineEffect>, f: ColorField): Option<u8>
    decreases |es|
  {
    if |es| == 0 then None
    else match LastColor(es[1..], f)
      case Some(v) => Some(v)
      case None => if es[0].SetColor? && es[0].field == f then Some(es[0].value) else None
  }

  /** The character the last effect overriding glyph field `g` gives it, if any does. */
  function LastGlyph(es: seq<LineEffect>, g: GlyphField): Option<char>
    decreases |es|
  {
    if |es| == 0 then None
    else match LastGlyph(es[1..], g)
      case Some(c) => Some(c)
      case None => if es[0].SetGlyph? && es[0].glyph == g then Some(es[0].symbol) else None
  }

  /** The body of `load`'s loop for one line: skip comments and blank lines, split the line at
      its first `=`, trim both sides, select the field by name and parse the value; every `?` and
      `ok_or_else` becomes a `Fail`. This is the step `Load` runs, with the source's early exits;
      `ParseLine` states the same step as a function so that the lemmas about whole files, which
      cannot call a method, can use it, and the ensures proves the two agree. */
  method ReadLine(line: string) returns (e: LineEffect)
    ensures e == ParseLine(line)
  {
    if StartsWith(line, "#") || AllWhitespace(line) {
      return Skip;
    }
    var parts := SplitOnce(line, '=');
    if parts.None? {
      return Fail(Corrupt);
    }
    var variable := Trim(parts.value.0);
    var value := Trim(parts.value.1);
    if EndsWith(variable, "char") {
      var index := GlyphFieldNamed(variable);
      if index.None? {
        return Fail(Corrupt);
      }
      if |value| == 1 {
        return SetGlyph(index.value, value[0]);
      }
      var codepoint := ParseHexU32(value);
      if codepoint.None? {
        return Fail(InvalidNumber);
      }
      var c := CharFromU32(codepoint.value);
      if c.None? {
        return Fail(Corrupt);
      }
      return SetGlyph(index.value, c.value);
    } else {
      var index := ColorFieldNamed(variable);
      if index.None? {
        return Fail(Corrupt);
      }
      var number := ParseU8(value);
      if number.None? {
        return Fail(InvalidNumber);
      }
      return SetColor(index.value, number.value);
    }
  }

  /** `load`: start from `DEFAULT` and apply the lines in order, writing each override through the
      field its name selects; the first malformed line abandons the theme being built. */
  method Load(lines: seq<string>) returns (r: Result<Theme, LoadError>)
    ensures r == ApplyLines(DEFAULT, lines)
  {
    var theme := DEFAULT;
    for i := 0 to |lines|
      invariant ApplyEffects(theme, Effects(lines)[i..]) == ApplyLines(DEFAULT, lines)
    {
      var e := ReadLine(lines[i]);
      LoadStep(theme, lines, i);
      match e {
        case Fail(error) =>
          return Err(error);
        case Skip =>
        case SetColor(field, value) =>
          theme := WithColor(theme, field, value);
        case SetGlyph(glyph, symbol) =>
          theme := WithGlyph(theme, glyph, symbol);
      }
    }
    assert Effects(lines)[|lines|..] == [];
    return Ok(theme);
  }

  /** One turn of `load`'s loop: the rest of the file from line `i` is that line's effect followed
      by the rest from line `i + 1`. */
  lemma LoadStep(t: Theme, lines: seq<string>, i: nat)
    requires i < |lines|
    ensures ApplyEffects(t, Effects(lines)[i..]) ==
      if ParseLine(lines[i]).Fail? then Err(ParseLine(lines[i]).error)
      else ApplyEffects(Apply(t, ParseLine(lines[i])), Effects(lines)[i + 1..])
  {
    var es := Effects(lines)[i..];
    assert es[0] == ParseLine(lines[i]) && es[1..] == Effects(lines)[i + 1..];
  }

  /** The error of the first failing effect, if any. */
  function FirstError(es: seq<LineEffect>): Option<LoadError>
    decreases |es|
  {
    if |es| == 0 then None
    else if es[0].Fail? then Some(es[0].error)
    else FirstError(es[1..])
  }

  /** Applying the effects fails exactly with the first failing effect's error. */
  lemma {:induction false} ApplyEffectsError(t: Theme, es: seq<LineEffect>)
    ensures ApplyEffects(t, es).Err? <==> FirstError(es).Some?
    ensures ApplyEffects(t, es).Err? ==> ApplyEffects(t, es).error == FirstError(es).value
    decreases |es|
  {
    if |es| > 0 && !es[0].Fail? {
      ApplyEffectsError(Apply(t, es[0]), es[1..]);
    }
  }

  /** The load fails exactly when some line fails, and then with the error of the first such line:
      no theme is produced from a file that is partly wrong. */
  lemma LoadFailsOnFirstBadLine(t: Theme, es: seq<LineEffect>)
    ensures ApplyEffects(t, es).Err? <==> exists i :: 0 <= i < |es| && es[i].Fail?
    ensures ApplyEffects(t, es).Err? ==>
      exists i :: 0 <= i < |es| && es[i] == Fail(ApplyEffects(t, es).error)
        && forall j :: 0 <= j < i ==> !es[j].Fail?
  {
    ApplyEffectsError(t, es);
    if FirstError(es).Some? {
      var i := FirstFailure(es);
    } else {
      NoFailure(es);
    }
  }

  /** The first failing effect, when there is one. */
  lemma {:induction false} FirstFailure(es: seq<LineEffect>) returns (i: nat)
    requires FirstError(es).Some?
    ensures i < |es| && es[i] == Fail(FirstError(es).value)
    ensures forall j :: 0 <= j < i ==> !es[j].Fail?
    decreases |es|
  {
    if es[0].Fail? {
      return 0;
    }
    var tail := es[1..];
    var k := FirstFailure(tail);
    i := k + 1;
    forall j | 0 <= j < i
      ensures !es[j].Fail?
    {
      if j > 0 {
        assert es[j] == tail[j - 1];
      }
    }
  }

  /** Without a first failing effect there is no failing effect at all. */
  lemma {:induction false} NoFailure(es: seq<LineEffect>)
    requires FirstError(es).None?
    ensures forall i :: 0 <= i < |es| ==> !es[i].Fail?
    decreases |es|
  {
    if |es| > 0 {
      var tail := es[1..];
      NoFailure(tail);
      forall i | 0 <= i < |es|
        ensures !es[i].Fail?
      {
        if i > 0 {
          assert es[i] == tail[i - 1];
        }
      }
    }
  }

  /** After a successful load every colour field holds the value of the last line that overrides
      it, or its starting value when none does; `ps_bg` and `ps_fg` are never changed. */
  lemma {:induction false} LastColorWins(t: Theme, es: seq<LineEffect>, f: ColorField)
    requires ApplyEffects(t, es).Ok?
    ensures Color(ApplyEffects(t, es).value, f) == LastColor(es, f).GetOr(Color(t, f))
    ensures ApplyEffects(t, es).value.psBg == t.psBg
    ensures ApplyEffects(t, es).value.psFg == t.psFg
    decreases |es|
  {
    if |es| > 0 {
      LastColorWins(Apply(t, es[0]), es[1..], f);
    }
  }

  /** After a successful load every glyph field holds the character of the last line that
      overrides it, or its starting value when none does. */
  lemma {:induction false} LastGlyphWins(t: Theme, es: seq<LineEffect>, g: GlyphField)
    requires ApplyEffects(t, es).Ok?
    ensures Glyph(ApplyEffects(t, es).value, g) == LastGlyph(es, g).GetOr(Glyph(t, g))
    decreases |es|
  {
    if |es| > 0 {
      LastGlyphWins(Apply(t, es[0]), es[1..], g);
    }
  }

  /** A file of comments and blank lines loads as the theme it starts from. */
  lemma IgnoredLinesKeepTheme(t: Theme, lines: seq<string>)
    requires forall i :: 0 <= i < |lines| ==> IsIgnored(lines[i])
    ensures ApplyLines(t, lines) == Ok(t)
  {
    SkipsKeepTheme(t, Effects(lines));
  }

  lemma {:induction false} SkipsKeepTheme(t: Theme, es: seq<LineEffect>)
    requires forall i :: 0 <= i < |es| ==> es[i].Skip?
    ensures ApplyEffects(t, es) == Ok(t)
    decreases |es|
  {
    if |es| > 0 {
      SkipsKeepTheme(t, es[1..]);
    }
  }

  /** A colour override written with any white space around the name and the value sets the named
      field to the value when it fits in a `u8` and fails with `InvalidNumber` otherwise: the
      loader reads back what `name = value` says. */
  lemma ColorLineRoundTrip(name: string, n: nat, pad0: string, pad1: string, pad2: string, pad3: string)
    requires name in COLOR_NAMES
    requires AllWhitespace(pad0) && AllWhitespace(pad1) && AllWhitespace(pad2) && AllWhitespace(pad3)
    ensures ParseLine(pad0 + name + pad1 + "=" + (pad2 + Decimal(n) + pad3))
         == if n < 256 then SetColor(ColorFieldNamed(name).value, n) else Fail(InvalidNumber)
  {
    ColorNameShape(name);
    ColorNameSuffix(name);
    PaddedLine(pad0, name, pad1, pad2 + Decimal(n) + pad3);
    PaddedDecimal(n, pad2, pad3);
  }

  /** A padded decimal value reads back as the number when it fits in a byte. */
  lemma PaddedDecimal(n: nat, pad2: string, pad3: string)
    requires AllWhitespace(pad2) && AllWhitespace(pad3)
    ensures ParseU8(Trim(pad2 + Decimal(n) + pad3)) == if n < 256 then Some(n) else None
  {
    DecimalWellFormed(n);
    ParseU8Decimal(n);
    TrimPadded(pad2, Decimal(n), pad3);
  }

  /** A glyph override whose value is a code point of two or more hexadecimal digits sets the glyph
      to that character, and fails with `Corrupt` when the code point is a surrogate or lies past
      U+10FFFF. */
  lemma GlyphLineRoundTrip(name: string, n: nat, pad0: string, pad1: string, pad2: string, pad3: string)
    requires name in GLYPH_NAMES
    requires 16 <= n < U32_LIMIT
    requires AllWhitespace(pad0) && AllWhitespace(pad1) && AllWhitespace(pad2) && AllWhitespace(pad3)
    ensures ParseLine(pad0 + name + pad1 + "=" + (pad2 + Hex(n) + pad3))
         == match CharFromU32(n)
            case Some(c) => SetGlyph(GlyphFieldNamed(name).value, c)
            case None => Fail(Corrupt)
  {
    GlyphNameShape(name);
    GlyphNameSuffix(name);
    PaddedLine(pad0, name, pad1, pad2 + Hex(n) + pad3);
    PaddedHex(n, pad2, pad3);
  }

  /** A padded code point of two or more hexadecimal digits is read as that code point. */
  lemma PaddedHex(n: nat, pad2: string, pad3: string)
    requires 16 <= n < U32_LIMIT
    requires AllWhitespace(pad2) && AllWhitespace(pad3)
    ensures GlyphValue(Trim(pad2 + Hex(n) + pad3))
         == match CharFromU32(n)
            case Some(c) => Ok(c)
            case None => Err(Corrupt)
  {
    DigitsWellFormed(n, 16);
    HexWidth(n);
    ParseHexU32Hex(n);
    TrimPadded(pad2, Hex(n), pad3);
  }

  /** A single character after `=` is taken literally, even a hexadecimal digit: `_char = 5` sets
      the glyph to `5`, not to U+0005. */
  lemma GlyphLiteralLine(name: string, c: char, pad0: string, pad1: string, pad2: string, pad3: string)
    requires name in GLYPH_NAMES
    requires !IsWhitespace(c)
    requires AllWhitespace(pad0) && AllWhitespace(pad1) && AllWhitespace(pad2) && AllWhitespace(pad3)
    ensures ParseLine(pad0 + name + pad1 + "=" + (pad2 + [c] + pad3))
         == SetGlyph(GlyphFieldNamed(name).value, c)
  {
    GlyphNameShape(name);
    var right := pad2 + [c] + pad3;
    PaddedLine(pad0, name, pad1, right);
    TrimPadded(pad2, [c], pad3);
    GlyphNameSuffix(name);
  }

  /** Colour names never take the glyph branch of the loader, glyph names always do. */
  lemma ColorNameSuffix(name: string)
    requires IsColorName(name)
    ensures !EndsWith(name, "char")
  {
    assert name[|name| - 1] != "char"[3];
  }

  lemma GlyphNameSuffix(name: string)
    requires IsGlyphName(name)
    ensures EndsWith(name, "char")
  {
    var suffix := name[|name| - 4..];
    assert suffix[0] == 'c' && suffix[1] == 'h' && suffix[2] == 'a' && suffix[3] == 'r';
    assert suffix == "char";
  }

  /** The line `pad0 name pad1 = right` is not ignored and splits into the name and `right`. */
  lemma PaddedLine(pad0: string, name: string, pad1: string, right: string)
    requires IsIdentifier(name)
    requires AllWhitespace(pad0) && AllWhitespace(pad1)
    ensures var line := pad0 + name + pad1 + "=" + right;
      !IsIgnored(line) && SplitOnce(line, '=') == Some((pad0 + name + pad1, right))
      && Trim(pad0 + name + pad1) == name
  {
    var left := pad0 + name + pad1;
    NoSeparatorInPadded(pad0, name, pad1);
    SplitOnceJoin(left, '=', right);
    TrimPadded(pad0, name, pad1);
    PaddedNotIgnored(pad0, name, pad1, right);
  }

  lemma PaddedNotIgnored(pad0: string, name: string, pad1: string, right: string)
    requires IsIdentifier(name)
    requires AllWhitespace(pad0)
    ensures !IsIgnored(pad0 + name + pad1 + "=" + right)
  {
    var line := pad0 + name + pad1 + "=" + right;
    assert line[|pad0|] == name[0];
    assert line[0] != '#' by {
      if |pad0| > 0 {
        assert line[0] == pad0[0];
      } else {
        assert line[0] == name[0];
      }
    }
    NotIgnored(line, |pad0|);
  }

  lemma NoSeparatorInPadded(pad0: string, name: string, pad1: string)
    requires IsIdentifier(name)
    requires AllWhitespace(pad0) && AllWhitespace(pad1)
    ensures '=' !in pad0 + name + pad1
  {
    var left := pad0 + name + pad1;
    forall k | 0 <= k < |left|
      ensures left[k] != '='
    {
      if k < |pad0| {
        assert left[k] == pad0[k];
      } else if k < |pad0| + |name| {
        assert left[k] == name[k - |pad0|];
      } else {
        assert left[k] == pad1[k - |pad0| - |name|];
      }
    }
  }

  /** A line whose first character is not `#` and that has a character other than white space is
      read as an override. */
  lemma NotIgnored(line: string, k: nat)
    requires k < |line| && !IsWhitespace(line[k])
    requires line[0] != '#'
    ensures !IsIgnored(line)
  {
  }

  /** `ps_bg` and `ps_fg` are fields of the theme that no line can override: a line whose name
      reads `ps_bg` or `ps_fg` once trimmed is corrupt, whatever the padding and the value. */
  lemma PromptColoursNotOverridable(line: string)
    requires !StartsWith(line, "#") && SplitOnce(line, '=').Some?
    requires Trim(SplitOnce(line, '=').value.0) in {"ps_bg", "ps_fg"}
    ensures ParseLine(line) == Fail(Corrupt)
  {
    PsNamesUnknown();
    UnknownNameLine(line);
  }

  /** `git_staged_char=2605` sets the staged glyph to U+2605. */
  lemma StagedHexLine()
    ensures ParseLine("git_staged_char" + "=" + "2605") == SetGlyph(4, '\U{2605}')
  {
    StagedGlyphName();
    StarHex();
    GlyphLineRoundTrip("git_staged_char", 0x2605, "", "", "", "");
    Unpadded("git_staged_char", "2605");
  }

  /** `git_staged_char=*` sets the staged glyph to `*`, and so does any other single character that
      is not white space. */
  lemma StagedLiteralLine(c: char)
    requires !IsWhitespace(c)
    ensures ParseLine("git_staged_char" + "=" + [c]) == SetGlyph(4, c)
  {
    StagedGlyphName();
    GlyphLiteralLine("git_staged_char", c, "", "", "", "");
    Unpadded("git_staged_char", [c]);
  }

  /** A line written without white space is the padded form with empty padding. */
  lemma Unpadded(name: string, value: string)
    ensures "" + name + "" + "=" + ("" + value + "") == name + "=" + value
  {
    assert "" + name + "" == name;
    assert "" + value + "" == value;
  }

  lemma StagedGlyphName()
    ensures "git_staged_char" in GLYPH_NAMES && GlyphFieldNamed("git_staged_char") == Some(4)
  {
    assert GLYPH_NAMES[4] == "git_staged_char";
    assert GLYPH_NAMES[..4] == ["ssh_char", "ro_char", "git_ahead_char", "git_behind_char"];
  }

  lemma StarHex()
    ensures Hex(0x2605) == "2605"
  {
    assert Digits(0x26, 16) == "26";
    assert Digits(0x260, 16) == "260";
  }

  lemma PsNamesUnknown()
    ensures IsIdentifier("ps_bg") && "ps_bg" !in COLOR_NAMES && "ps_bg" !in GLYPH_NAMES
    ensures IsIdentifier("ps_fg") && "ps_fg" !in COLOR_NAMES && "ps_fg" !in GLYPH_NAMES
  {
    PsIdentifiers();
    PsNotInChunk0();
    PsNotInChunk1();
    PsNotInChunk2();
    PsNotInChunk3();
    PsNotInChunk4();
    PsNotInChunk5();
  }

  lemma PsIdentifiers()
    ensures IsIdentifier("ps_bg") && IsIdentifier("ps_fg")
  {
  }

  lemma PsNotInChunk0()
    ensures "ps_bg" !in COLOR_NAMES_0 && "ps_fg" !in COLOR_NAMES_0
  {
  }

  lemma PsNotInChunk1()
    ensures "ps_bg" !in COLOR_NAMES_1 && "ps_fg" !in COLOR_NAMES_1
  {
  }

  lemma PsNotInChunk2()
    ensures "ps_bg" !in COLOR_NAMES_2 && "ps_fg" !in COLOR_NAMES_2
  {
  }

  lemma PsNotInChunk3()
    ensures "ps_bg" !in COLOR_NAMES_3 && "ps_fg" !in COLOR_NAMES_3
  {
  }

  lemma PsNotInChunk4()
    ensures "ps_bg" !in COLOR_NAMES_4 && "ps_fg" !in COLOR_NAMES_4
  {
  }

  lemma PsNotInChunk5()
    ensures "ps_bg" !in COLOR_NAMES_5 && "ps_fg" !in COLOR_NAMES_5
  {
  }

  /** A line that is not a comment and whose name, once trimmed, neither table knows is corrupt,
      whatever its value: `Bogus = 5`, ` git-bg=1` and `=3` all fail with `ErrCorrupt`. */
  lemma UnknownNameLine(line: string)
    requires !StartsWith(line, "#") && SplitOnce(line, '=').Some?
    requires var name := Trim(SplitOnce(line, '=').value.0); name !in COLOR_NAMES && name !in GLYPH_NAMES
    ensures ParseLine(line) == Fail(Corrupt)
  {
    var left := SplitOnce(line, '=').value.0;
    NotIgnored(line, |left|);
    UnnamedFieldLine(line);
  }

  lemma UnnamedFieldLine(line: string)
    requires !IsIgnored(line) && SplitOnce(line, '=').Some?
    requires var name := Trim(SplitOnce(line, '=').value.0);
      ColorFieldNamed(name).None? && GlyphFieldNamed(name).None?
    ensures ParseLine(line) == Fail(Corrupt)
  {
  }

  /** A line that is neither a comment nor blank and has no `=` is corrupt. */
  lemma MissingSeparatorLine(line: string)
    requires !IsIgnored(line) && '=' !in line
    ensures ParseLine(line) == Fail(Corrupt)
  {
  }
}
