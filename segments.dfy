/** src/segments/mod.rs: the `Segment` record, its builders, its once-only escaping, and the two
    renderers. A renderer's `print!` calls are modelled by returning the text they would write. */
module Segments {
  import opened Wrappers
  import opened Numerals
  import opened Text
  import Format

  /** `as_bold`, which src/format.rs does not define: any rendering of a text in bold. */
  type Emphasis = (Format.Shell, string) -> string

  /** The separator glyph U+E0C6 drawn between tiles of different background. */
  const SEPARATOR: char := '\U{E0C6}'

  datatype Segment = Segment(
    bg: u8,
    fg: u8,
    before: string,
    after: string,
    conditional: bool,
    noSpaceAfter: bool,
    bold: bool,
    escaped: bool,
    text: string)
  {
    /** `Segment::new`: plain text on the given colours, no decoration, not yet escaped. */
    static function New(bg: u8, fg: u8, text: string): (s: Segment)
      ensures s.bg == bg && s.fg == fg && s.text == text
      ensures s.before == "" && s.after == ""
      ensures !s.conditional && !s.noSpaceAfter && !s.bold && !s.escaped
    {
      Segment(bg, fg, "", "", false, false, false, false, text)
    }

    /** `dont_escape`: the text is to be emitted as it is. Only `escaped` changes. */
    function DontEscape(): (s: Segment)
      ensures s.escaped && s.(escaped := escaped) == this
    {
      this.(escaped := true)
    }

    /** `bold`. Only `bold` changes. */
    function Bold(): (s: Segment)
      ensures s.bold && s.(bold := bold) == this
    {
      this.(bold := true)
    }

    /** `with_before`. Only `before` changes. */
    function WithBefore(before': string): (s: Segment)
      ensures s.before == before' && s.(before := before) == this
    {
      this.(before := before')
    }

    /** `with_after`. Only `after` changes. */
    function WithAfter(after': string): (s: Segment)
      ensures s.after == after' && s.(after := after) == this
    {
      this.(after := after')
    }

    /** `into_conditional`. Only `conditional` changes. */
    function IntoConditional(): (s: Segment)
      ensures s.conditional && s.(conditional := conditional) == this
    {
      this.(conditional := true)
    }

    /** `with_no_space_after`. Only `no_space_after` changes. */
    function WithNoSpaceAfter(): (s: Segment)
      ensures s.noSpaceAfter && s.(noSpaceAfter := noSpaceAfter) == this
    {
      this.(noSpaceAfter := true)
    }

    /** `escape(&mut self, shell)`: escapes the text unless that has already been done, and records
        that it has. The in-place update is modelled as returning the updated segment. */
    function Escape(shell: Format.Shell): (s: Segment)
      ensures s.escaped
      ensures escaped ==> s == this
      ensures !escaped ==> s.text == Format.Escape(shell, text)
      ensures s.(text := text, escaped := escaped) == this
    {
      if escaped then this else this.(text := Format.Escape(shell, text), escaped := true)
    }

    /** The text between the colour codes and the gap: bold-wrapped or plain. */
    function Body(shell: Format.Shell, asBold: Emphasis): string
    {
      if bold then asBold(shell, text) else text
    }

    /** Whether `print` leaves a space after the text: not when asked not to, and not when the next
        tile has the same background and the two merge. */
    predicate GapAfter(next: Option<Segment>)
    {
      !noSpaceAfter && (next.None? || next.value.bg != bg)
    }

    /** Whether `print` draws the separator glyph after this tile: always for the last tile, and
        before a next tile unless it is conditional or shares the background. */
    predicate SeparatorAfter(next: Option<Segment>)
    {
      next.None? || (!next.value.conditional && next.value.bg != bg)
    }

    /** What `print` writes between the gap and `after`. */
    function Separator(next: Option<Segment>, shell: Format.Shell): (r: string)
    {
      match next
      case Some(n) =>
        if n.conditional || n.bg == bg then ""
        else if bg == 0 then Format.Fg(shell, n.bg) + Format.Bg(shell, n.bg) + [SEPARATOR]
        else Format.Fg(shell, bg) + Format.Bg(shell, n.bg) + [SEPARATOR]
      case None =>
        Format.Fg(shell, bg) + Format.Reset(shell, false) + [SEPARATOR] + Format.Reset(shell, true)
    }

    /** What `print` writes between `before` and the gap: the tile's colours, a space and the
        body. */
    function Lead(shell: Format.Shell, asBold: Emphasis): string
    {
      Format.Fg(shell, fg) + Format.Bg(shell, bg) + " " + Body(shell, asBold)
    }

    /** The space `print` leaves after the text, or nothing. */
    function Gap(next: Option<Segment>): string
    {
      if GapAfter(next) then " " else ""
    }

    /** `print`: one left-to-right tile followed by the join towards `next`. */
    function Print(next: Option<Segment>, shell: Format.Shell, asBold: Emphasis): (out: string)
      ensures StartsWith(out, before) && EndsWith(out, after)
    {
      var middle := Lead(shell, asBold) + Gap(next) + Separator(next, shell);
      Affixes(before, middle, after);
      before + middle + after
    }

    /** What `print_rtl` writes between `after` and the tile's own colours: the colours of the
        join with the tile to the left, which is left out when that tile is conditional or shares
        the background. */
    function RtlLead(next: Option<Segment>, shell: Format.Shell): string
    {
      match next
      case Some(n) =>
        if n.conditional || n.bg == bg then "" else Format.Fg(shell, bg) + Format.Bg(shell, n.bg)
      case None => Format.Fg(shell, bg)
    }

    /** `print_rtl`: one right-to-left tile; `next` is the tile to its left. It draws no glyph, and
        resets both colours at the end of every tile. */
    function PrintRtl(next: Option<Segment>, shell: Format.Shell): (out: string)
      ensures StartsWith(out, after)
      ensures EndsWith(out, Format.Reset(shell, false) + Format.Reset(shell, true) + before)
    {
      var middle := RtlLead(next, shell) + Format.Fg(shell, fg) + Format.Bg(shell, bg) + " " + text
        + (if noSpaceAfter then "" else " ");
      var closing := Format.Reset(shell, false) + Format.Reset(shell, true) + before;
      Affixes(after, middle, closing);
      after + middle + closing
    }
  }

  /** Escaping is guarded: after the first call, further calls change nothing, whatever the
      dialect. */
  lemma EscapeIdempotent(s: Segment, shell: Format.Shell, shell': Format.Shell)
    ensures s.Escape(shell).Escape(shell') == s.Escape(shell)
  {
  }

  /** A segment built with `dont_escape` keeps its text through `escape`. */
  lemma DontEscapeKeepsText(s: Segment, shell: Format.Shell)
    ensures s.DontEscape().Escape(shell).text == s.text
  {
  }

  /** A tile followed by one of the same background merges with it: no gap and no join, so the
      text runs straight into `after`. */
  lemma SameBackgroundMerges(s: Segment, n: Segment, shell: Format.Shell, asBold: Emphasis)
    requires n.bg == s.bg
    ensures s.Print(Some(n), shell, asBold) == s.before + s.Lead(shell, asBold) + s.after
  {
  }

  /** `print` leaves a space after the text exactly when `no_space_after` is unset and there is no
      next tile or the next tile has another background; the join and `after` follow it. */
  lemma GapRule(s: Segment, next: Option<Segment>, shell: Format.Shell, asBold: Emphasis)
    ensures s.Print(next, shell, asBold) == s.before + s.Lead(shell, asBold)
      + (if !s.noSpaceAfter && (next.None? || next.value.bg != s.bg) then " " else "")
      + s.Separator(next, shell) + s.after
  {
    var lead, gap, sep := s.Lead(shell, asBold), s.Gap(next), s.Separator(next, shell);
    assert gap == if !s.noSpaceAfter && (next.None? || next.value.bg != s.bg) then " " else "";
    assert s.Print(next, shell, asBold) == s.before + (lead + gap + sep) + s.after;
    Regroup(s.before, lead, gap, sep, s.after);
  }

  lemma Regroup(a: string, b: string, c: string, d: string, e: string)
    ensures a + (b + c + d) + e == a + b + c + d + e
  {
  }

  /** The last tile closes the prompt: the separator glyph is drawn in the tile's background colour
      between a reset of the background and a reset of the foreground, and only `after` follows. */
  lemma LastTileResets(s: Segment, shell: Format.Shell, asBold: Emphasis)
    ensures EndsWith(s.Print(None, shell, asBold),
      Format.Fg(shell, s.bg) + Format.Reset(shell, false) + [SEPARATOR] + Format.Reset(shell, true) + s.after)
  {
    var join := s.Separator(None, shell);
    assert join == Format.Fg(shell, s.bg) + Format.Reset(shell, false) + [SEPARATOR] + Format.Reset(shell, true);
    var lead := s.Lead(shell, asBold);
    var gap := s.Gap(None);
    Affixes(lead, gap, join);
    EndsWithPrepend(s.before, lead + gap + join, join);
    EndsWithAppend(s.before + (lead + gap + join), join, s.after);
    assert s.Print(None, shell, asBold) == s.before + (lead + gap + join) + s.after;
  }

  /** Between tiles of different background the glyph takes the tile's own background colour on
      the next tile's background, except that a tile on background 0 fades in: its glyph is drawn
      in the next tile's background colour. */
  lemma SeparatorFadesIn(s: Segment, n: Segment, shell: Format.Shell, asBold: Emphasis)
    requires !n.conditional && n.bg != s.bg
    ensures EndsWith(s.Print(Some(n), shell, asBold),
      Format.Fg(shell, if s.bg == 0 then n.bg else s.bg) + Format.Bg(shell, n.bg) + [SEPARATOR] + s.after)
  {
    var join := s.Separator(Some(n), shell);
    assert join == Format.Fg(shell, if s.bg == 0 then n.bg else s.bg) + Format.Bg(shell, n.bg) + [SEPARATOR];
    var lead := s.Lead(shell, asBold);
    var gap := s.Gap(Some(n));
    Affixes(lead, gap, join);
    EndsWithPrepend(s.before, lead + gap + join, join);
    EndsWithAppend(s.before + (lead + gap + join), join, s.after);
    assert s.Print(Some(n), shell, asBold) == s.before + (lead + gap + join) + s.after;
  }

  /** Whether `print_rtl` leaves a space after the text depends on `no_space_after` alone: unlike
      `print`, it keeps the space even before a tile of the same background. */
  lemma RtlGapOnlyNoSpaceAfter(s: Segment, next: Option<Segment>, shell: Format.Shell)
    ensures var closing := Format.Reset(shell, false) + Format.Reset(shell, true) + s.before;
      EndsWith(s.PrintRtl(next, shell), s.text + (if s.noSpaceAfter then "" else " ") + closing)
  {
    var closing := Format.Reset(shell, false) + Format.Reset(shell, true) + s.before;
    var gap := if s.noSpaceAfter then "" else " ";
    var codes := s.RtlLead(next, shell) + Format.Fg(shell, s.fg) + Format.Bg(shell, s.bg) + " ";
    var middle := codes + s.text + gap;
    EndsWithTwo(codes, s.text, gap);
    EndsWithPrepend(s.after, middle, s.text + gap);
    EndsWithAppend(s.after + middle, s.text + gap, closing);
    assert s.PrintRtl(next, shell) == s.after + middle + closing;
  }

  /** `print_rtl` never emphasises: a tile renders the same whether or not it was made bold. */
  lemma RtlIgnoresBold(s: Segment, next: Option<Segment>, shell: Format.Shell)
    ensures s.Bold().PrintRtl(next, shell) == s.PrintRtl(next, shell)
  {
  }

  /** The walk over the prompt's segments that calls `print`: every tile left to right, each told
      of its successor, the last one of none. The prompt starts with the first tile's `before`. */
  function RenderLeftToRight(segments: seq<Segment>, shell: Format.Shell, asBold: Emphasis): (out: string)
    ensures |segments| > 0 ==> StartsWith(out, segments[0].before)
  {
    if |segments| == 0 then ""
    else
      var next := if |segments| > 1 then Some(segments[1]) else None;
      segments[0].Print(next, shell, asBold) + RenderLeftToRight(segments[1..], shell, asBold)
  }

  /** A left-to-right prompt ends as its last tile does: the glyph between the resets of the
      background and of the foreground, then the last tile's `after`. */
  lemma {:induction false} RenderEndsWithResets(segments: seq<Segment>, shell: Format.Shell, asBold: Emphasis)
    requires |segments| > 0
    ensures var last := segments[|segments| - 1];
      EndsWith(RenderLeftToRight(segments, shell, asBold),
        Format.Fg(shell, last.bg) + Format.Reset(shell, false) + [SEPARATOR] + Format.Reset(shell, true) + last.after)
    decreases |segments|
  {
    var last := segments[|segments| - 1];
    if |segments| == 1 {
      LastTileResets(last, shell, asBold);
      assert RenderLeftToRight(segments, shell, asBold) == last.Print(None, shell, asBold) + "";
      assert last.Print(None, shell, asBold) + "" == last.Print(None, shell, asBold);
    } else {
      var tail := segments[1..];
      assert tail[|tail| - 1] == last;
      RenderEndsWithResets(tail, shell, asBold);
      EndsWithPrepend(segments[0].Print(Some(segments[1]), shell, asBold), RenderLeftToRight(tail, shell, asBold),
        Format.Fg(shell, last.bg) + Format.Reset(shell, false) + [SEPARATOR] + Format.Reset(shell, true) + last.after);
    }
  }

  /** How many separator glyphs the left-to-right layout rules call for: one per boundary with a
      next tile that is neither conditional nor of the same background, and one after the last. */
  function SeparatorCount(segments: seq<Segment>): nat
  {
    if |segments| == 0 then 0
    else
      var next := if |segments| > 1 then Some(segments[1]) else None;
      (if segments[0].SeparatorAfter(next) then 1 else 0) + SeparatorCount(segments[1..])
  }

  /** None of a segment's own strings contains the separator glyph. */
  predicate GlyphFree(s: Segment, shell: Format.Shell, asBold: Emphasis)
  {
    SEPARATOR !in s.before && SEPARATOR !in s.after && SEPARATOR !in s.Body(shell, asBold)
  }

  lemma CodesGlyphFree(shell: Format.Shell, n: u8, foreground: bool)
    ensures SEPARATOR !in Format.Fg(shell, n)
    ensures SEPARATOR !in Format.Bg(shell, n)
    ensures SEPARATOR !in Format.Reset(shell, foreground)
  {
    Format.CodesAscii(shell, n, foreground);
  }

  lemma NoOccurrences(s: string)
    requires SEPARATOR !in s
    ensures Occurrences(s, SEPARATOR) == 0
  {
    OccurrencesAbsent(s, SEPARATOR);
  }

  /** A tile contributes exactly one glyph when the layout rules draw a separator after it and
      none otherwise. */
  lemma PrintGlyphs(s: Segment, next: Option<Segment>, shell: Format.Shell, asBold: Emphasis)
    requires GlyphFree(s, shell, asBold)
    ensures Occurrences(s.Print(next, shell, asBold), SEPARATOR) == if s.SeparatorAfter(next) then 1 else 0
  {
    var lead := s.Lead(shell, asBold);
    var gap := s.Gap(next);
    var sep := s.Separator(next, shell);
    var middle := lead + gap + sep;
    assert s.Print(next, shell, asBold) == s.before + middle + s.after;
    OccurrencesAppend(s.before + middle, s.after, SEPARATOR);
    OccurrencesAppend(s.before, middle, SEPARATOR);
    OccurrencesAppend(lead + gap, sep, SEPARATOR);
    OccurrencesAppend(lead, gap, SEPARATOR);
    LeadGlyphFree(s, shell, asBold);
    NoOccurrences(s.before);
    NoOccurrences(lead);
    NoOccurrences(gap);
    NoOccurrences(s.after);
    SeparatorGlyphs(s, next, shell);
  }

  lemma LeadGlyphFree(s: Segment, shell: Format.Shell, asBold: Emphasis)
    requires GlyphFree(s, shell, asBold)
    ensures SEPARATOR !in s.Lead(shell, asBold)
  {
    CodesGlyphFree(shell, s.fg, true);
    CodesGlyphFree(shell, s.bg, false);
  }

  lemma SeparatorGlyphs(s: Segment, next: Option<Segment>, shell: Format.Shell)
    ensures Occurrences(s.Separator(next, shell), SEPARATOR) == if s.SeparatorAfter(next) then 1 else 0
  {
    var sep := s.Separator(next, shell);
    match next {
      case Some(n) =>
        if n.conditional || n.bg == s.bg {
        } else {
          var c := if s.bg == 0 then n.bg else s.bg;
          CodesGlyphFree(shell, c, true);
          CodesGlyphFree(shell, n.bg, true);
          NoOccurrences(Format.Fg(shell, c) + Format.Bg(shell, n.bg));
          OccurrencesAppend(Format.Fg(shell, c) + Format.Bg(shell, n.bg), [SEPARATOR], SEPARATOR);
        }
      case None =>
        CodesGlyphFree(shell, s.bg, true);
        CodesGlyphFree(shell, s.bg, false);
        var pre := Format.Fg(shell, s.bg) + Format.Reset(shell, false);
        NoOccurrences(pre);
        NoOccurrences(Format.Reset(shell, true));
        OccurrencesAppend(pre, [SEPARATOR], SEPARATOR);
        OccurrencesAppend(pre + [SEPARATOR], Format.Reset(shell, true), SEPARATOR);
    }
  }

  /** Over a whole prompt, the glyphs drawn are exactly those the layout rules call for. */
  lemma {:induction false} RenderGlyphs(segments: seq<Segment>, shell: Format.Shell, asBold: Emphasis)
    requires forall i :: 0 <= i < |segments| ==> GlyphFree(segments[i], shell, asBold)
    ensures Occurrences(RenderLeftToRight(segments, shell, asBold), SEPARATOR) == SeparatorCount(segments)
  {
    if |segments| > 0 {
      var next := if |segments| > 1 then Some(segments[1]) else None;
      PrintGlyphs(segments[0], next, shell, asBold);
      RenderGlyphs(segments[1..], shell, asBold);
      OccurrencesAppend(segments[0].Print(next, shell, asBold), RenderLeftToRight(segments[1..], shell, asBold), SEPARATOR);
    }
  }

  lemma RtlCodesGlyphFree(s: Segment, next: Option<Segment>, shell: Format.Shell)
    ensures SEPARATOR !in s.RtlLead(next, shell) + Format.Fg(shell, s.fg) + Format.Bg(shell, s.bg) + " "
    ensures SEPARATOR !in Format.Reset(shell, false) + Format.Reset(shell, true)
  {
    CodesGlyphFree(shell, s.fg, true);
    CodesGlyphFree(shell, s.bg, false);
    CodesGlyphFree(shell, s.bg, true);
    if next.Some? { CodesGlyphFree(shell, next.value.bg, true); }
  }

  /** A right-to-left tile draws no glyph of its own. */
  lemma PrintRtlGlyphs(s: Segment, next: Option<Segment>, shell: Format.Shell)
    ensures Occurrences(s.PrintRtl(next, shell), SEPARATOR)
         == Occurrences(s.after, SEPARATOR) + Occurrences(s.text, SEPARATOR) + Occurrences(s.before, SEPARATOR)
  {
    var codes := s.RtlLead(next, shell) + Format.Fg(shell, s.fg) + Format.Bg(shell, s.bg) + " ";
    var gap := if s.noSpaceAfter then "" else " ";
    var resets := Format.Reset(shell, false) + Format.Reset(shell, true);
    RtlCodesGlyphFree(s, next, shell);
    NoOccurrences(codes);
    NoOccurrences(gap);
    NoOccurrences(resets);
    var middle := codes + s.text + gap;
    assert s.PrintRtl(next, shell) == s.after + middle + (resets + s.before);
    OccurrencesAppend(s.after + middle, resets + s.before, SEPARATOR);
    OccurrencesAppend(s.after, middle, SEPARATOR);
    OccurrencesAppend(codes + s.text, gap, SEPARATOR);
    OccurrencesAppend(codes, s.text, SEPARATOR);
    OccurrencesAppend(resets, s.before, SEPARATOR);
  }
}
