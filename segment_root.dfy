/** src/segments/segment_root.rs: the exit status of the last command, a fixed glyph on the
    "passed" colours when it is 0, the status in decimal on the "failed" colours otherwise. */
module SegmentRoot {
  import opened Wrappers
  import opened Numerals
  import opened Themes
  import opened Segments
  import opened Prompt

  /** The text shown after a command that succeeded: U+1204D and a space. */
  const PASSED_TEXT: string := "\U{1204D} "

  /** The segment `segment_root` pushes for exit status `error`. */
  function RootSegment(theme: Theme, error: u8): (s: Segment)
    ensures error == 0 ==> s == Segment.New(theme.cmdPassedBg, theme.cmdPassedFg, PASSED_TEXT)
    ensures error != 0 ==> s.bg == theme.cmdFailedBg && s.fg == theme.cmdFailedFg
    ensures error != 0 ==> ParseU8(s.text) == Some(error)
  {
    if error == 0 then Segment.New(theme.cmdPassedBg, theme.cmdPassedFg, PASSED_TEXT)
    else
      ParseU8Decimal(error);
      Segment.New(theme.cmdFailedBg, theme.cmdFailedFg, Decimal(error))
  }

  /** `segment_root`. */
  method SegmentRoot(p: Powerline, error: u8)
    modifies p`segments
    ensures p.segments == old(p.segments) + [RootSegment(p.theme, error)]
  {
    if error == 0 {
      p.segments := p.segments + [Segment.New(p.theme.cmdPassedBg, p.theme.cmdPassedFg, PASSED_TEXT)];
      return;
    }
    p.segments := p.segments + [Segment.New(p.theme.cmdFailedBg, p.theme.cmdFailedFg, Decimal(error))];
  }

  /** The text tells every outcome apart: two statuses give the same text only when they are equal,
      and the text after a failure is never the text after a success. */
  lemma RootTextInjective(theme: Theme, e1: u8, e2: u8)
    ensures RootSegment(theme, e1).text == RootSegment(theme, e2).text <==> e1 == e2
  {
    if e1 != 0 && e2 != 0 {
      if RootSegment(theme, e1).text == RootSegment(theme, e2).text {
        assert Some(e1) == ParseU8(RootSegment(theme, e1).text) == Some(e2);
      }
    } else if e1 != e2 {
      var failed := if e1 == 0 then e2 else e1;
      DecimalWellFormed(failed);
      var text := RootSegment(theme, failed).text;
      assert IsDecimalDigit(text[0]);
      assert !IsDecimalDigit(PASSED_TEXT[0]);
    }
  }

  /** After a failure the text is the status in decimal: one to three digits, the first of them
      not `0`. */
  lemma FailedText(theme: Theme, error: u8)
    requires error != 0
    ensures var text := RootSegment(theme, error).text;
      1 <= |text| <= 3 && text[0] != '0'
      && forall k :: 0 <= k < |text| ==> IsDecimalDigit(text[k])
  {
    DecimalWidthU8(error);
    DecimalWellFormed(error);
  }

  /** With the default theme a success is shown on colour 162 and a failure on colour 124, both in
      colour 231. */
  lemma DefaultRootColours(error: u8)
    ensures RootSegment(DEFAULT, error).fg == 231
    ensures RootSegment(DEFAULT, error).bg == if error == 0 then 162 else 124
  {
  }
}
