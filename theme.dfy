/** src/theme.rs: the `Theme` record with its compiled-in `DEFAULT`, and the two closed name tables
    (`theme_index_u8`, `theme_index_char`) through which the override loader reaches a field. A field
    reachable by name is identified by its position in its table; reading and writing through that
    position is what the `&mut` reference the source's tables return does. */
module Themes {
  import opened Wrappers
  import opened Numerals

  /** 50 colour indices and 9 glyphs, in the order src/theme.rs declares them. */
  datatype Theme = Theme(
    separatorFg: u8,
    homeBg: u8,
    homeFg: u8,
    pathBg: u8,
    pathFg: u8,
    cwdFg: u8,
    usernameBg: u8,
    usernameFg: u8,
    usernameRootBg: u8,
    usernameRootFg: u8,
    hostnameBg: u8,
    hostnameFg: u8,
    jobsBg: u8,
    jobsFg: u8,
    timeBg: u8,
    timeFg: u8,
    sshBg: u8,
    sshFg: u8,
    sshChar: char,
    roBg: u8,
    roFg: u8,
    roChar: char,
    gitCleanBg: u8,
    gitCleanFg: u8,
    gitDirtyBg: u8,
    gitDirtyFg: u8,
    gitDetachedBg: u8,
    gitDetachedFg: u8,
    gitAheadBg: u8,
    gitAheadFg: u8,
    gitBehindBg: u8,
    gitBehindFg: u8,
    gitConflictedBg: u8,
    gitConflictedFg: u8,
    gitChangedBg: u8,
    gitChangedFg: u8,
    gitStagedBg: u8,
    gitStagedFg: u8,
    gitUntrackedBg: u8,
    gitUntrackedFg: u8,
    gitStashedBg: u8,
    gitStashedFg: u8,
    gitAheadChar: char,
    gitBehindChar: char,
    gitStagedChar: char,
    gitChangedChar: char,
    gitUntrackedChar: char,
    gitConflictedChar: char,
    gitStashedChar: char,
    cmdPassedBg: u8,
    cmdPassedFg: u8,
    cmdFailedBg: u8,
    cmdFailedFg: u8,
    psBg: u8,
    psFg: u8,
    virtualEnvBg: u8,
    virtualEnvFg: u8,
    nixshellBg: u8,
    nixshellFg: u8
  )

  /** The compiled-in theme. */
  const DEFAULT: Theme := Theme(
    244,  // separator_fg
    31,  // home_bg
    15,  // home_fg
    236,  // path_bg
    252,  // path_fg
    254,  // cwd_fg
    32,  // username_bg
    231,  // username_fg
    124,  // username_root_bg
    231,  // username_root_fg
    24,  // hostname_bg
    231,  // hostname_fg
    238,  // jobs_bg
    39,  // jobs_fg
    238,  // time_bg
    250,  // time_fg
    166,  // ssh_bg
    254,  // ssh_fg
    '\U{E0A2}',  // ssh_char
    172,  // ro_bg
    231,  // ro_fg
    '\U{E0A2}',  // ro_char
    236,  // git_clean_bg
    2,  // git_clean_fg
    236,  // git_dirty_bg
    98,  // git_dirty_fg
    236,  // git_detached_bg
    220,  // git_detached_fg
    236,  // git_ahead_bg
    248,  // git_ahead_fg
    236,  // git_behind_bg
    248,  // git_behind_fg
    236,  // git_conflicted_bg
    160,  // git_conflicted_fg
    236,  // git_changed_bg
    166,  // git_changed_fg
    236,  // git_staged_bg
    2,  // git_staged_fg
    236,  // git_untracked_bg
    214,  // git_untracked_fg
    236,  // git_stashed_bg
    31,  // git_stashed_fg
    '\U{2B06}',  // git_ahead_char
    '\U{2B07}',  // git_behind_char
    '\U{25CF}',  // git_staged_char
    '\U{271A}',  // git_changed_char
    '\U{2026}',  // git_untracked_char
    '\U{2716}',  // git_conflicted_char
    '\U{2691}',  // git_stashed_char
    162,  // cmd_passed_bg
    231,  // cmd_passed_fg
    124,  // cmd_failed_bg
    231,  // cmd_failed_fg
    238,  // ps_bg
    39,  // ps_fg
    233,  // virtual_env_bg
    162,  // virtual_env_fg
    237,  // nixshell_bg
    130  // nixshell_fg
  )

  /** The names `theme_index_u8` accepts, in its order (`ps_bg` and `ps_fg` are not among them),
      in slices of eight. */
  const COLOR_NAMES_0: seq<string> := ["separator_fg", "home_bg", "home_fg", "path_bg", "path_fg", "cwd_fg", "username_bg", "username_fg"]
  const COLOR_NAMES_1: seq<string> := ["username_root_bg", "username_root_fg", "hostname_bg", "hostname_fg", "jobs_bg", "jobs_fg", "time_bg", "time_fg"]
  const COLOR_NAMES_2: seq<string> := ["ssh_bg", "ssh_fg", "ro_bg", "ro_fg", "git_clean_bg", "git_clean_fg", "git_dirty_bg", "git_dirty_fg"]
  const COLOR_NAMES_3: seq<string> := ["git_detached_bg", "git_detached_fg", "git_ahead_bg", "git_ahead_fg", "git_behind_bg", "git_behind_fg", "git_conflicted_bg", "git_conflicted_fg"]
  const COLOR_NAMES_4: seq<string> := ["git_changed_bg", "git_changed_fg", "git_staged_bg", "git_staged_fg", "git_untracked_bg", "git_untracked_fg", "git_stashed_bg", "git_stashed_fg"]
  const COLOR_NAMES_5: seq<string> := ["cmd_passed_bg", "cmd_passed_fg", "cmd_failed_bg", "cmd_failed_fg", "virtual_env_bg", "virtual_env_fg", "nixshell_bg", "nixshell_fg"]

  const COLOR_NAMES: seq<string> :=
    COLOR_NAMES_0 + COLOR_NAMES_1 + COLOR_NAMES_2 + COLOR_NAMES_3 + COLOR_NAMES_4 + COLOR_NAMES_5

  /** The names `theme_index_char` accepts, in its order. */
  const GLYPH_NAMES: seq<string> := [
    "ssh_char",
    "ro_char",
    "git_ahead_char",
    "git_behind_char",
    "git_staged_char",
    "git_changed_char",
    "git_untracked_char",
    "git_conflicted_char",
    "git_stashed_char"
  ]

  predicate IsNameChar(c: char)
  {
    'a' <= c <= 'z' || c == '_'
  }

  /** Lower-case letters and underscores only, and so no white space, `#` or `=`. */
  predicate IsIdentifier(name: string)
  {
    |name| > 0 && forall k :: 0 <= k < |name| ==> IsNameChar(name[k])
  }

  /** An identifier ending in `bg` or `fg`, and so never in `char`. */
  predicate IsColorName(name: string)
  {
    IsIdentifier(name) && name[|name| - 1] == 'g'
  }

  /** An identifier ending in `char`. */
  predicate IsGlyphName(name: string)
  {
    IsIdentifier(name) && |name| >= 4 && name[|name| - 4] == 'c' && name[|name| - 3] == 'h'
    && name[|name| - 2] == 'a' && name[|name| - 1] == 'r'
  }

  lemma ColorNameShape(name: string)
    requires name in COLOR_NAMES
    ensures IsColorName(name)
  {
    ColorNamesShape0(); ColorNamesShape1(); ColorNamesShape2();
    ColorNamesShape3(); ColorNamesShape4(); ColorNamesShape5();
  }

  lemma ColorNamesShape0()
    ensures forall n | n in COLOR_NAMES_0 :: IsColorName(n)
  {
  }

  lemma ColorNamesShape1()
    ensures forall n | n in COLOR_NAMES_1 :: IsColorName(n)
  {
  }

  lemma ColorNamesShape2()
    ensures forall n | n in COLOR_NAMES_2 :: IsColorName(n)
  {
  }

  lemma ColorNamesShape3()
    ensures forall n | n in COLOR_NAMES_3 :: IsColorName(n)
  {
  }

  lemma ColorNamesShape4()
    ensures forall n | n in COLOR_NAMES_4 :: IsColorName(n)
  {
  }

  lemma ColorNamesShape5()
    ensures forall n | n in COLOR_NAMES_5 :: IsColorName(n)
  {
  }

  lemma GlyphNameShape(name: string)
    requires name in GLYPH_NAMES
    ensures IsGlyphName(name)
  {
    GlyphNamesShapeLow();
    GlyphNamesShapeHigh();
    var i :| 0 <= i < |GLYPH_NAMES| && GLYPH_NAMES[i] == name;
  }

  lemma GlyphNamesShapeLow()
    ensures forall i | 0 <= i < 5 :: IsGlyphName(GLYPH_NAMES[i])
  {
  }

  lemma GlyphNamesShapeHigh()
    ensures forall i | 5 <= i < 9 :: IsGlyphName(GLYPH_NAMES[i])
  {
  }

  /** A colour field that an override may name: its position in `COLOR_NAMES`. */
  type ColorField = i: nat | i < 48

  /** A glyph field that an override may name: its position in `GLYPH_NAMES`. */
  type GlyphField = i: nat | i < 9

  /** The first position of `name` in `table`, or None: the source's `match name { ... }`. */
  function Lookup(table: seq<string>, name: string): (r: Option<nat>)
    ensures r.Some? ==> r.value < |table| && table[r.value] == name && name !in table[..r.value]
    ensures r.None? <==> name !in table
  {
    if |table| == 0 then None
    else if table[0] == name then Some(0)
    else match Lookup(table[1..], name)
      case None => None
      case Some(i) =>
        assert table[..i + 1] == [table[0]] + table[1..][..i];
        Some(i + 1)
  }

  /** `theme_index_u8`: the colour field a name denotes. */
  function ColorFieldNamed(name: string): (r: Option<ColorField>)
    ensures r.Some? ==> COLOR_NAMES[r.value] == name
    ensures r.None? <==> name !in COLOR_NAMES
  {
    match Lookup(COLOR_NAMES, name)
    case Some(i) => Some(i)
    case None => None
  }

  /** `theme_index_char`: the glyph field a name denotes. */
  function GlyphFieldNamed(name: string): (r: Option<GlyphField>)
    ensures r.Some? ==> GLYPH_NAMES[r.value] == name
    ensures r.None? <==> name !in GLYPH_NAMES
  {
    match Lookup(GLYPH_NAMES, name)
    case Some(i) => Some(i)
    case None => None
  }

  /** Colour fields 0 to 7 of the name table. */
  function ColorSlice0(t: Theme): seq<u8>
  {
    [t.separatorFg, t.homeBg, t.homeFg, t.pathBg, t.pathFg, t.cwdFg, t.usernameBg, t.usernameFg]
  }

  /** Colour fields 8 to 15 of the name table. */
  function ColorSlice1(t: Theme): seq<u8>
  {
    [t.usernameRootBg, t.usernameRootFg, t.hostnameBg, t.hostnameFg, t.jobsBg, t.jobsFg, t.timeBg, t.timeFg]
  }

  /** Colour fields 16 to 23 of the name table. */
  function ColorSlice2(t: Theme): seq<u8>
  {
    [t.sshBg, t.sshFg, t.roBg, t.roFg, t.gitCleanBg, t.gitCleanFg, t.gitDirtyBg, t.gitDirtyFg]
  }

  /** Colour fields 24 to 31 of the name table. */
  function ColorSlice3(t: Theme): seq<u8>
  {
    [t.gitDetachedBg, t.gitDetachedFg, t.gitAheadBg, t.gitAheadFg, t.gitBehindBg, t.gitBehindFg, t.gitConflictedBg, t.gitConflictedFg]
  }

  /** Colour fields 32 to 39 of the name table. */
  function ColorSlice4(t: Theme): seq<u8>
  {
    [t.gitChangedBg, t.gitChangedFg, t.gitStagedBg, t.gitStagedFg, t.gitUntrackedBg, t.gitUntrackedFg, t.gitStashedBg, t.gitStashedFg]
  }

  /** Colour fields 40 to 47 of the name table. */
  function ColorSlice5(t: Theme): seq<u8>
  {
    [t.cmdPassedBg, t.cmdPassedFg, t.cmdFailedBg, t.cmdFailedFg, t.virtualEnvBg, t.virtualEnvFg, t.nixshellBg, t.nixshellFg]
  }

  /** The colour fields reachable by name, in table order. */
  function Colors(t: Theme): (s: seq<u8>)
    ensures |s| == |COLOR_NAMES|
  {
    ColorSlice0(t) + ColorSlice1(t) + ColorSlice2(t) + ColorSlice3(t) + ColorSlice4(t) + ColorSlice5(t)
  }

  /** The glyph fields, in table order. */
  function Glyphs(t: Theme): (s: seq<char>)
    ensures |s| == |GLYPH_NAMES|
  {
    [t.sshChar, t.roChar, t.gitAheadChar, t.gitBehindChar, t.gitStagedChar, t.gitChangedChar, t.gitUntrackedChar, t.gitConflictedChar, t.gitStashedChar]
  }

  /** Overwrites colour fields 0 to 7 with `s`, and nothing else. */
  function WithColorSlice0(t: Theme, s: seq<u8>): (r: Theme)
    requires |s| == 8
    ensures ColorSlice0(r) == s
    ensures ColorSlice1(r) == ColorSlice1(t) && ColorSlice2(r) == ColorSlice2(t) && ColorSlice3(r) == ColorSlice3(t)
    ensures ColorSlice4(r) == ColorSlice4(t) && ColorSlice5(r) == ColorSlice5(t)
    ensures Glyphs(r) == Glyphs(t) && r.psBg == t.psBg && r.psFg == t.psFg
  {
    assert s == [s[0], s[1], s[2], s[3], s[4], s[5], s[6], s[7]];
    t.(separatorFg := s[0], homeBg := s[1], homeFg := s[2], pathBg := s[3], pathFg := s[4], cwdFg := s[5], usernameBg := s[6], usernameFg := s[7])
  }

  /** Overwrites colour fields 8 to 15 with `s`, and nothing else. */
  function WithColorSlice1(t: Theme, s: seq<u8>): (r: Theme)
    requires |s| == 8
    ensures ColorSlice1(r) == s
    ensures ColorSlice0(r) == ColorSlice0(t) && ColorSlice2(r) == ColorSlice2(t) && ColorSlice3(r) == ColorSlice3(t)
    ensures ColorSlice4(r) == ColorSlice4(t) && ColorSlice5(r) == ColorSlice5(t)
    ensures Glyphs(r) == Glyphs(t) && r.psBg == t.psBg && r.psFg == t.psFg
  {
    assert s == [s[0], s[1], s[2], s[3], s[4], s[5], s[6], s[7]];
    t.(usernameRootBg := s[0], usernameRootFg := s[1], hostnameBg := s[2], hostnameFg := s[3], jobsBg := s[4], jobsFg := s[5], timeBg := s[6], timeFg := s[7])
  }

  /** Overwrites colour fields 16 to 23 with `s`, and nothing else. */
  function WithColorSlice2(t: Theme, s: seq<u8>): (r: Theme)
    requires |s| == 8
    ensures ColorSlice2(r) == s
    ensures ColorSlice0(r) == ColorSlice0(t) && ColorSlice1(r) == ColorSlice1(t) && ColorSlice3(r) == ColorSlice3(t)
    ensures ColorSlice4(r) == ColorSlice4(t) && ColorSlice5(r) == ColorSlice5(t)
    ensures Glyphs(r) == Glyphs(t) && r.psBg == t.psBg && r.psFg == t.psFg
  {
    assert s == [s[0], s[1], s[2], s[3], s[4], s[5], s[6], s[7]];
    t.(sshBg := s[0], sshFg := s[1], roBg := s[2], roFg := s[3], gitCleanBg := s[4], gitCleanFg := s[5], gitDirtyBg := s[6], gitDirtyFg := s[7])
  }

  /** Overwrites colour fields 24 to 31 with `s`, and nothing else. */
  function WithColorSlice3(t: Theme, s: seq<u8>): (r: Theme)
    requires |s| == 8
    ensures ColorSlice3(r) == s
    ensures ColorSlice0(r) == ColorSlice0(t) && ColorSlice1(r) == ColorSlice1(t) && ColorSlice2(r) == ColorSlice2(t)
    ensures ColorSlice4(r) == ColorSlice4(t) && ColorSlice5(r) == ColorSlice5(t)
    ensures Glyphs(r) == Glyphs(t) && r.psBg == t.psBg && r.psFg == t.psFg
  {
    assert s == [s[0], s[1], s[2], s[3], s[4], s[5], s[6], s[7]];
    t.(gitDetachedBg := s[0], gitDetachedFg := s[1], gitAheadBg := s[2], gitAheadFg := s[3], gitBehindBg := s[4], gitBehindFg := s[5], gitConflictedBg := s[6], gitConflictedFg := s[7])
  }

  /** Overwrites colour fields 32 to 39 with `s`, and nothing else. */
  function WithColorSlice4(t: Theme, s: seq<u8>): (r: Theme)
    requires |s| == 8
    ensures ColorSlice4(r) == s
    ensures ColorSlice0(r) == ColorSlice0(t) && ColorSlice1(r) == ColorSlice1(t) && ColorSlice2(r) == ColorSlice2(t)
    ensures ColorSlice3(r) == ColorSlice3(t) && ColorSlice5(r) == ColorSlice5(t)
    ensures Glyphs(r) == Glyphs(t) && r.psBg == t.psBg && r.psFg == t.psFg
  {
    assert s == [s[0], s[1], s[2], s[3], s[4], s[5], s[6], s[7]];
    t.(gitChangedBg := s[0], gitChangedFg := s[1], gitStagedBg := s[2], gitStagedFg := s[3], gitUntrackedBg := s[4], gitUntrackedFg := s[5], gitStashedBg := s[6], gitStashedFg := s[7])
  }

  /** Overwrites colour fields 40 to 47 with `s`, and nothing else. */
  function WithColorSlice5(t: Theme, s: seq<u8>): (r: Theme)
    requires |s| == 8
    ensures ColorSlice5(r) == s
    ensures ColorSlice0(r) == ColorSlice0(t) && ColorSlice1(r) == ColorSlice1(t) && ColorSlice2(r) == ColorSlice2(t)
    ensures ColorSlice3(r) == ColorSlice3(t) && ColorSlice4(r) == ColorSlice4(t)
    ensures Glyphs(r) == Glyphs(t) && r.psBg == t.psBg && r.psFg == t.psFg
  {
    assert s == [s[0], s[1], s[2], s[3], s[4], s[5], s[6], s[7]];
    t.(cmdPassedBg := s[0], cmdPassedFg := s[1], cmdFailedBg := s[2], cmdFailedFg := s[3], virtualEnvBg := s[4], virtualEnvFg := s[5], nixshellBg := s[6], nixshellFg := s[7])
  }

  /** Overwrites every named colour field with the corresponding entry of `s`. */
  function WithColors(t: Theme, s: seq<u8>): (r: Theme)
    requires |s| == |COLOR_NAMES|
    ensures Colors(r) == s && Glyphs(r) == Glyphs(t)
    ensures r.psBg == t.psBg && r.psFg == t.psFg
  {
    var t0 := WithColorSlice0(t, s[0..8]);
    var t1 := WithColorSlice1(t0, s[8..16]);
    var t2 := WithColorSlice2(t1, s[16..24]);
    var t3 := WithColorSlice3(t2, s[24..32]);
    var t4 := WithColorSlice4(t3, s[32..40]);
    var t5 := WithColorSlice5(t4, s[40..48]);
    assert s == s[0..8] + s[8..16] + s[16..24] + s[24..32] + s[32..40] + s[40..48];
    t5
  }

  /** Overwrites every glyph field with the corresponding entry of `s`. */
  function WithGlyphs(t: Theme, s: seq<char>): (r: Theme)
    requires |s| == |GLYPH_NAMES|
    ensures Glyphs(r) == s && Colors(r) == Colors(t)
    ensures r.psBg == t.psBg && r.psFg == t.psFg
  {
    var r := t.(
      sshChar := s[0],
      roChar := s[1],
      gitAheadChar := s[2],
      gitBehindChar := s[3],
      gitStagedChar := s[4],
      gitChangedChar := s[5],
      gitUntrackedChar := s[6],
      gitConflictedChar := s[7],
      gitStashedChar := s[8]
    );
    assert s == [s[0], s[1], s[2], s[3], s[4], s[5], s[6], s[7], s[8]];
    r
  }

  /** Reading through the reference `theme_index_u8` returns. */
  function Color(t: Theme, f: ColorField): u8
  {
    Colors(t)[f]
  }

  /** Reading through the reference `theme_index_char` returns. */
  function Glyph(t: Theme, g: GlyphField): char
  {
    Glyphs(t)[g]
  }

  /** `*index = v` for a colour field: that field becomes `v`, every other field keeps its value. */
  function WithColor(t: Theme, f: ColorField, v: u8): (r: Theme)
    ensures Color(r, f) == v
    ensures forall g: ColorField :: g != f ==> Color(r, g) == Color(t, g)
    ensures Glyphs(r) == Glyphs(t)
    ensures r.psBg == t.psBg && r.psFg == t.psFg
  {
    WithColors(t, Colors(t)[f := v])
  }

  /** `*index = c` for a glyph field: that field becomes `c`, every other field keeps its value. */
  function WithGlyph(t: Theme, g: GlyphField, c: char): (r: Theme)
    ensures Glyph(r, g) == c
    ensures forall h: GlyphField :: h != g ==> Glyph(r, h) == Glyph(t, h)
    ensures Colors(r) == Colors(t)
    ensures r.psBg == t.psBg && r.psFg == t.psFg
  {
    WithGlyphs(t, Glyphs(t)[g := c])
  }
}
