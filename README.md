# powerline-rs prompt core, modelled in Dafny

powerline-rs prints a shell prompt as a row of coloured tiles ("segments"). Each segment producer
pushes `Segment`s onto the `Powerline` state: the working directory, the exit status of the last
command, the git branch with its ahead and behind counts, and the counts of staged, changed,
untracked and conflicted paths and of stashes. Each segment's text is escaped for the target shell.
The segments are then printed left to right, or right to left. Separator glyphs and colour codes
are chosen by the relation between each tile and the next. The colours and glyphs come from a
compiled-in theme. A theme file can override them with `name = value` lines.

The model is split into modules that follow the program's files:

- `Format` (src/format.rs): the colour and reset escape codes of the three output dialects (raw
  ANSI, bash, zsh), the root sigil, and the escaping of prompt metacharacters. The escaping is a
  specification function and also the source's character loop, proved equal.
- `Segments` (src/segments/mod.rs): the `Segment` record, its builders, its once-only escaping,
  and the two renderers. A renderer returns the text its `print!` calls would write.
- `Themes` (src/theme.rs): the 59-field `Theme`, `DEFAULT`, and the two closed name tables through
  which a theme file reaches a field.
- `ThemeLoad` (src/theme.rs `load`): the per-line parser as a function and as the source's method,
  and the load loop over the lines of a file.
- `SegmentGit` (src/segments/segment_git.rs): the two git segment producers over the
  `Powerline` caches.
- `SegmentCwd` (src/segments/segment_cwd.rs) and `SegmentRoot` (src/segments/segment_root.rs).
- `Prompt`: the `Powerline` class. It holds the segment list, theme, shell and the two git caches
  that the producers update in place.
- `GitRepo`: the answers git2 gives, as plain data.
- `Numerals`: Rust's decimal and lower-case hexadecimal rendering and `from_str_radix` for unsigned integers.
- `Text`: Unicode white space, `trim`, `splitn(2, '=')`, and prefix and suffix tests.
- `Wrappers`: `Option` and `Result`.

Where this text and the behaviour one might expect from the program's description differ, the model
follows the code:

- **Escaping:** bash escaping rewrites only `\` and `$`, and zsh escaping only `%`. No quote
  character or other token is touched.
- **Bad colour value:** a colour value that is not a number, or is over 255, fails with the number
  parser's own error (`InvalidNumber`), not with `ErrCorrupt`. Both abort the load.
- **Branch name:** "Big Bang" is shown only when `head()` fails. When HEAD resolves but no branch
  name or short id can be had, `branch_name.unwrap()` panics; the model reports that as an outcome
  (see below).
- **Right-to-left spacing:** `print_rtl` leaves a space after the text even when the next tile has
  the same background. Only `no_space_after` suppresses it.
- **Discovery retries:** `discover_if_none` stores `None` after a failed discovery. A later
  producer therefore tries discovery again. It does not remember the failure.
- **Changed-path colours:** `segment_gitstage` reads `git_notstaged_bg` and `git_notstaged_fg` at
  src/segments/segment_git.rs:177, but `Theme` has no such fields. The model uses
  `git_changed_bg` and `git_changed_fg`, which are the fields the theme declares and the name
  table accepts.
- **Stash colours:** `segment_gitstage` draws the stash segment at src/segments/segment_git.rs:186
  on `git_conflicted_bg`, in colour 31, with U+2691, whatever the theme says. The stage segments
  the model pushes (`SegmentGit.StageSegments`, used by `PushStageSegments` and `SegmentGitstage`)
  use `git_stashed_bg`, `git_stashed_fg` and `git_stashed_char` instead. The code as written is
  kept as `SegmentGit.StashSegmentAsWritten`; "## Findings" gives the details.

## Model

| member | source | states |
|---|---|---|
| Format.Fg | src/format.rs:4-13 | a foreground code wraps the parameters `38;5;` and the palette index, which reads back as the same `u8` |
| Format.Bg | src/format.rs:15-24 | a background code wraps `48;5;` and the palette index, which reads back as the same `u8` |
| Format.Reset | src/format.rs:26-36 | a reset code wraps the parameter `39` (default foreground) or `49` (default background) |
| Format.Root | src/format.rs:38-44 | the root sigil of every dialect is non-empty and ends in `$` or `#` |
| Format.DialectWrapping | src/format.rs:4-36 | the bash and zsh codes are the raw SGR sequence wrapped in that shell's zero-width markers (`\[`…`\]` with `\e`, `%{`…`%}`) |
| Format.CodesAscii | src/format.rs:4-36 | every foreground, background and reset code is plain ASCII |
| Format.ColorCodesDistinct | src/format.rs:4-36 | two palette indices give the same foreground (or background) code only when equal; a foreground code is never a background code; no colour code is a reset |
| Format.EscapeChar | src/format.rs:50-60 | each input character becomes one or two characters |
| Format.EscapeString | src/format.rs:45-65 | the source's loop (identity for raw ANSI, one pass pushing each character's rewrite) computes `Escape` |
| Format.EscapeBareIdentity | src/format.rs:46-48 | escaping for raw ANSI is the identity |
| Format.UnescapeEscape | src/format.rs:49-64 | escaping loses nothing: reading the escaped text back gives the original, so no two texts escape alike |
| Format.EscapeLength | src/format.rs:52-60 | the escaped length is the original length plus one per special character of the dialect |
| Format.EscapeNeverShrinks | src/format.rs:45-64 | escaped text is never shorter than the original |
| Format.EscapeUnchanged | src/format.rs:52-60 | text without a special character of the dialect comes through unchanged |
| Format.EscapeTwiceDiffers | src/format.rs:52-60 | escaping is not idempotent (`$` and `%` double up again), which is why a segment records that it is escaped |
| Segments.Segment.New | src/segments/mod.rs:50-66 | a new segment has the given colours and text, no decoration and every flag off |
| Segments.Segment.DontEscape | src/segments/mod.rs:67-70 | sets `escaped` and changes nothing else |
| Segments.Segment.Bold | src/segments/mod.rs:71-74 | sets `bold` and changes nothing else |
| Segments.Segment.WithBefore | src/segments/mod.rs:75-78 | replaces `before` and changes nothing else |
| Segments.Segment.WithAfter | src/segments/mod.rs:79-82 | replaces `after` and changes nothing else |
| Segments.Segment.IntoConditional | src/segments/mod.rs:83-86 | sets `conditional` and changes nothing else |
| Segments.Segment.WithNoSpaceAfter | src/segments/mod.rs:90-93 | sets `no_space_after` and changes nothing else |
| Segments.Segment.Escape | src/segments/mod.rs:94-100 | the result is marked escaped; an escaped segment is returned unchanged; otherwise only the text changes, to the dialect's escaping of it |
| Segments.EscapeIdempotent | src/segments/mod.rs:94-100 | a second `escape`, in any dialect, changes nothing |
| Segments.DontEscapeKeepsText | src/segments/mod.rs:67-100 | a segment built with `dont_escape` keeps its text through `escape` |
| Segments.Segment.Print | src/segments/mod.rs:101-122 | a left-to-right tile starts with `before` and ends with `after` |
| Segments.SameBackgroundMerges | src/segments/mod.rs:110-115 | before a tile of the same background neither the gap nor a separator is written: colours, text, then `after` |
| Segments.GapRule | src/segments/mod.rs:110-112 | a left-to-right tile writes a space after its text exactly when `no_space_after` is unset and the next tile is absent or of another background, followed by the join and `after` |
| Segments.SeparatorGlyphs | src/segments/mod.rs:113-120 | the join writes one separator glyph when the next tile is absent, or is neither conditional nor of the same background, and none otherwise |
| Segments.PrintGlyphs | src/segments/mod.rs:101-122 | a tile whose own strings hold no separator glyph contributes exactly the glyph its join calls for |
| Segments.RenderGlyphs | src/segments/mod.rs:101-122 | over a whole left-to-right prompt the glyph count is the number of joins that call for a separator, the last tile always included |
| Segments.LastTileResets | src/segments/mod.rs:118-121 | the last tile ends with the glyph in its background colour between the background reset and the foreground reset, then only `after` |
| Segments.SeparatorFadesIn | src/segments/mod.rs:116-117 | before a tile of another background the glyph is drawn in the tile's own background colour on the next tile's, except that a tile on background 0 uses the next tile's colour |
| Segments.RenderLeftToRight | src/segments/mod.rs:101-122 | the walk over the segments calling `print` left to right, each tile told of its successor and the last of none; the prompt starts with the first tile's `before` |
| Segments.RenderEndsWithResets | src/segments/mod.rs:118-121 | a whole left-to-right prompt ends with its last tile's glyph between the two resets, followed by that tile's `after` |
| Segments.Segment.PrintRtl | src/segments/mod.rs:123-139 | a right-to-left tile starts with `after` and ends with both resets followed by `before` |
| Segments.RtlGapOnlyNoSpaceAfter | src/segments/mod.rs:133-138 | a right-to-left tile writes a space after its text exactly when `no_space_after` is unset, whatever the next tile, before the two resets and `before` |
| Segments.RtlIgnoresBold | src/segments/mod.rs:133 | `print_rtl` writes the same text whether or not the segment is bold |
| Segments.PrintRtlGlyphs | src/segments/mod.rs:123-139 | a right-to-left tile draws no glyph of its own: its glyphs are those of `after`, the text and `before` |
| Themes.Lookup | src/theme.rs:204-267 | a name resolves to its first position in a table, and to nothing exactly when the table lacks it |
| Themes.ColorFieldNamed | src/theme.rs:204-267 | `theme_index_u8` resolves exactly the 48 names of its table, each to its own field (not `ps_bg`, `ps_fg`) |
| Themes.GlyphFieldNamed | src/theme.rs:269-284 | `theme_index_char` resolves exactly the 9 glyph names, each to its own field |
| Themes.ColorNameShape | src/theme.rs:204-267 | every colour name is an identifier ending in `bg` or `fg` |
| Themes.GlyphNameShape | src/theme.rs:269-284 | every glyph name is an identifier ending in `char` |
| Themes.WithColor | src/theme.rs:196-197 | writing a colour field changes that field and no other field, glyph or prompt colour |
| Themes.WithGlyph | src/theme.rs:187-194 | writing a glyph field changes that glyph and no other glyph or colour |
| Themes.WithColors | src/theme.rs:204-267 | writing all named colours at once sets exactly those and keeps the glyphs and `ps_bg`/`ps_fg` |
| Themes.WithGlyphs | src/theme.rs:269-284 | writing all glyphs at once sets exactly those and keeps every colour |
| ThemeLoad.GlyphValue | src/theme.rs:189-194 | one character is taken literally; otherwise the value must parse as hexadecimal `u32` (else the number error) and be a Unicode scalar value (else `ErrCorrupt`) |
| ThemeLoad.ParseLine | src/theme.rs:178-198 | a line is skipped exactly when it starts with `#` or is all white space |
| ThemeLoad.ReadLine | src/theme.rs:177-198 | the loop body (skip, split at the first `=`, trim, select the table by the `char` suffix, parse) computes `ParseLine` |
| ThemeLoad.Load | src/theme.rs:170-202 | loading starts from `DEFAULT` and applies the lines in order, stopping at the first failing line |
| ThemeLoad.ApplyEffectsError | src/theme.rs:176-199 | applying the lines fails exactly when one fails, with the first failure's error |
| ThemeLoad.LoadFailsOnFirstBadLine | src/theme.rs:176-199 | a file with any failing line yields no theme, and the error is that of its first failing line |
| ThemeLoad.LastColorWins | src/theme.rs:196-197 | after a load every colour field holds the value of the last line naming it, or its starting value; `ps_bg`/`ps_fg` never change |
| ThemeLoad.LastGlyphWins | src/theme.rs:187-194 | after a load every glyph holds the character of the last line naming it, or its starting value |
| ThemeLoad.IgnoredLinesKeepTheme | src/theme.rs:178-180 | a file of comments and blank lines loads as the theme it starts from |
| ThemeLoad.SkipsKeepTheme | src/theme.rs:178-180 | skipped lines leave the theme as it is |
| ThemeLoad.ColorLineRoundTrip | src/theme.rs:181-197 | `name = n`, with any white space around name and value, sets that colour to `n` when `n` < 256 and fails with the number error otherwise |
| ThemeLoad.PaddedDecimal | src/theme.rs:184-197 | a trimmed decimal rendering parses back as `u8` exactly when it fits |
| ThemeLoad.GlyphLineRoundTrip | src/theme.rs:186-194 | `name = hex` (two or more digits) sets that glyph to the code point, and fails with `ErrCorrupt` on a surrogate or a value past U+10FFFF |
| ThemeLoad.PaddedHex | src/theme.rs:189-193 | a trimmed hexadecimal rendering is read back as its code point |
| ThemeLoad.GlyphLiteralLine | src/theme.rs:189-190 | a single non-space character after `=` is the glyph itself, even a hexadecimal digit |
| ThemeLoad.StagedHexLine | src/theme.rs:192-193 | `git_staged_char=2605` sets the staged glyph to U+2605 |
| ThemeLoad.StagedLiteralLine | src/theme.rs:189-190 | `git_staged_char=*` sets the staged glyph to `*`, as does `git_staged_char=` followed by any other single non-blank character |
| ThemeLoad.UnknownNameLine | src/theme.rs:181-196 | a line that is not a comment, has an `=`, and whose name once trimmed is in neither table fails with `ErrCorrupt`, whatever the padding and the value (`Bogus = 5`, ` git-bg=1`) |
| ThemeLoad.MissingSeparatorLine | src/theme.rs:181-184 | a line that is neither a comment nor blank and has no `=` fails with `ErrCorrupt` |
| ThemeLoad.PromptColoursNotOverridable | src/theme.rs:181-196 | a line whose name trims to `ps_bg` or `ps_fg` fails with `ErrCorrupt`, whatever the padding and the value |
| ThemeLoad.NotIgnored | src/theme.rs:178 | a line not starting with `#` and holding a non-space character is not skipped |
| ThemeLoad.ColorNameSuffix | src/theme.rs:186 | a colour name never takes the glyph branch |
| ThemeLoad.GlyphNameSuffix | src/theme.rs:186 | a glyph name always takes the glyph branch |
| Numerals.ParseHexU32 | src/theme.rs:192 | `u32::from_str_radix(_, 16)` yields only values below 2^32 |
| Numerals.CharFromU32 | src/theme.rs:193 | `char::from_u32` fails exactly on surrogates and past U+10FFFF, and otherwise keeps the value |
| Numerals.ParseU8Decimal | src/theme.rs:197 | the `{}` rendering of a number parses back as `u8` exactly when it is below 256 |
| Numerals.ParseHexU32Hex | src/theme.rs:192 | the lower-case hexadecimal rendering of a number below 2^32 parses back as that number |
| Numerals.DigitsRoundTrip | src/theme.rs:192-197 | parsing a rendering in any radix from 2 to 16 gives the number back |
| Numerals.DigitsWellFormed | src/segments/segment_root.rs:8 | a rendering is non-empty, uses only digits of its radix and has no leading zero |
| Numerals.DecimalWidthU8 | src/segments/segment_root.rs:8 | a `u8` renders in one to three decimal digits |
| Numerals.DecimalInjective | src/segments/segment_root.rs:8 | different numbers render differently |
| Text.TrimPadded | src/theme.rs:183-184 | `trim` removes exactly the white space around a word that neither starts nor ends with white space |
| Text.SplitOnce | src/theme.rs:181-184 | `splitn(2, '=')` gives a second part exactly when the line has an `=`, and the two parts around the first `=` rejoin to the line |
| Text.SplitOnceJoin | src/theme.rs:181-184 | a part without `=`, an `=` and any rest split back into exactly those two parts |
| SegmentGit.DiscoverIfNone | src/segments/segment_git.rs:5-13 | a cached repository is kept, otherwise discovery's answer is cached; the result says whether a repository is cached |
| SegmentGit.StatusesIfNone | src/segments/segment_git.rs:15-34 | cached statuses are kept, otherwise the repository's are cached; the result says whether statuses are cached |
| SegmentGit.FindHeadBranch | src/segments/segment_git.rs:53-71 | the branch loop leaves the name and commit ids of the walk `HeadScan` describes |
| SegmentGit.HeadScanFindsFirstNamedHead | src/segments/segment_git.rs:57-71 | a name is found exactly when some checked-out branch has a readable name, and then it is the first such branch's name and commits |
| SegmentGit.CountTextDecodes | src/segments/segment_git.rs:114 | a count text is the glyph, a space, and the count in decimal, which reads back as the count |
| SegmentGit.AheadBehindSegments | src/segments/segment_git.rs:110-121 | at most two segments follow the branch segment |
| SegmentGit.AheadBehindCounts | src/segments/segment_git.rs:110-121 | the ahead segment appears exactly when ahead > 0 and shows that count; likewise behind |
| SegmentGit.SegmentGit | src/segments/segment_git.rs:36-122 | `segment_git` updates the caches and appends exactly the segments `GitPush` describes, or panics exactly when it does; without a repository nothing changes |
| SegmentGit.PushBranchSegments | src/segments/segment_git.rs:100-121 | appends the branch segment, then the ahead and behind segments |
| SegmentGit.GitPanicsIffNoName | src/segments/segment_git.rs:76-105 | `segment_git` panics exactly when it reaches readable statuses with neither a branch name nor a detached-HEAD short id |
| SegmentGit.GitPushShape | src/segments/segment_git.rs:36-122 | without a panic at most three segments are pushed: "Big Bang" alone, or the branch glyph and name followed by exactly the ahead and behind segments of the checked-out branch |
| SegmentGit.BigBangIffHeadError | src/segments/segment_git.rs:76-98 | "Big Bang" is pushed exactly when the branches can be listed, none is a checked-out branch with a readable name, and `head()` fails; it is then the only segment, on `git_dirty_bg`/`git_dirty_fg` |
| SegmentGit.BranchCleanIffNoStatus | src/segments/segment_git.rs:100-105 | for every theme, the branch segment takes both clean colours when no path has a status and both dirty colours otherwise; when the clean and dirty backgrounds differ, the background alone tells which |
| SegmentGit.Count | src/segments/segment_git.rs:149-168 | a kind's count is at most the number of paths |
| SegmentGit.CountIsPositions | src/segments/segment_git.rs:149-168 | a kind's count is the number of paths of that kind, each counted once |
| SegmentGit.KindsOverlap | src/segments/segment_git.rs:149-168 | a path staged and modified again counts as staged and as changed; a working-tree-only rename counts as nothing |
| SegmentGit.NewPathsClassified | src/segments/segment_git.rs:149-168 | one index-new and one working-tree-new path give one staged and one untracked path |
| SegmentGit.CountStatuses | src/segments/segment_git.rs:141-168 | the counting loop computes the four tallies and keeps the stash count |
| SegmentGit.StageSegmentsCount | src/segments/segment_git.rs:173-187 | one stage segment per positive count |
| SegmentGit.StageSegmentsEmptyIffClean | src/segments/segment_git.rs:149-187 | no stage segment is pushed exactly when no path is of any kind and there is no stash |
| SegmentGit.PushStageSegments | src/segments/segment_git.rs:173-187 | appends the staged, changed, untracked, conflicted and stash segments, each only when its count is positive |
| SegmentGit.SegmentGitstage | src/segments/segment_git.rs:124-188 | `segment_gitstage` updates the caches and appends the stage segments of the cached statuses and the stash count; nothing without a repository or statuses |
| SegmentGit.StashSegmentFollowsLoadedTheme | src/segments/segment_git.rs:186 | after applying theme lines whose last `git_stashed_fg` override sets `v`, the corrected stash segment is drawn in `v` and the written one in 31 |
| SegmentGit.StashSegmentIgnoresTheme | src/segments/segment_git.rs:186 | the written stash segment agrees with the theme's stash entries under `DEFAULT` but ignores an override of `git_stashed_fg` |
| SegmentCwd.StripPrefix | src/segments/segment_cwd.rs:9-13 | `strip_prefix` succeeds exactly when the base's components begin the path, and gives the rest |
| SegmentCwd.ToSkip | src/segments/segment_cwd.rs:20-24 | never more components are left out than there are |
| SegmentCwd.ShownComponents | src/segments/segment_cwd.rs:20-48 | the text is the home marker, the ellipsis when components are left out, `/`, and exactly the last components joined by `/` in order (all of them when the maximum depth is 0 or not exceeded, otherwise the maximum), only the last one emphasised |
| SegmentCwd.LocateCwd | src/segments/segment_cwd.rs:6-15 | the home directory is taken off when it begins the path, otherwise the root; without a home directory nothing is |
| SegmentCwd.WriteComponents | src/segments/segment_cwd.rs:37-48 | the loop writes each shown component after a `/`, the last one bold |
| SegmentCwd.SimpleCwdString | src/segments/segment_cwd.rs:4-51 | `simple_cwd_string` computes `CwdText` of the located directory |
| SegmentCwd.SegmentCwd | src/segments/segment_cwd.rs:53-55 | appends one segment on the path colours holding the directory text, marked as not to be escaped |
| SegmentCwd.HomeMarker | src/segments/segment_cwd.rs:31-48 | the text starts with `~` exactly inside the home directory, and with `/` elsewhere |
| SegmentCwd.TruncationMarked | src/segments/segment_cwd.rs:31-35 | when components are left out the ellipsis follows the home marker |
| SegmentCwd.LastComponentBold | src/segments/segment_cwd.rs:37-48 | the text ends with `/` and the emphasised last component |
| SegmentCwd.PlainCwdText | src/segments/segment_cwd.rs:31-48 | without emphasis or truncation the text is the home marker, `/` and the components joined by `/` |
| SegmentCwd.HomeDirectory | src/segments/segment_cwd.rs:8-29 | below the home directory only the components after it remain; in it the text is the emphasised `~` |
| SegmentCwd.NoHomeKeepsRoot | src/segments/segment_cwd.rs:7-15 | without a home directory the root stays a component: `/usr` is written `///` and the emphasised `usr` |
| Prompt.Powerline.constructor | src/segments/segment_git.rs:5-34 | a prompt starts with no segment and both git caches empty, so `discover_if_none` and `statuses_if_none` fill them at most once; the status cache only ever holds the cached repository's statuses (`Valid`) |
| SegmentRoot.RootSegment | src/segments/segment_root.rs:3-9 | status 0 gives U+1204D and a space on the passed colours; any other status reads back from the text, on the failed colours |
| SegmentRoot.SegmentRoot | src/segments/segment_root.rs:3-9 | appends exactly the segment `RootSegment` describes |
| SegmentRoot.RootTextInjective | src/segments/segment_root.rs:3-9 | two statuses give the same text exactly when they are equal |
| SegmentRoot.FailedText | src/segments/segment_root.rs:8 | a failure's text is one to three decimal digits without a leading zero |
| SegmentRoot.DefaultRootColours | src/theme.rs:143-146 | with `DEFAULT`, a success shows on colour 162, a failure on 124, both in 231 |

## Left out

- Reading the theme file: `File::open` and `lines()` errors are I/O. A file is its sequence of lines.
- git2: discovery, the branch iterator, `head`, `find_object(...).short_id()`, `statuses`,
  `stash_foreach` and `graph_ahead_behind` become the fixed answers of a `GitRepo.Repository`.
  Which paths a status query reports (untracked files, rename detection) is libgit2's concern.
- `env::current_dir` and `dirs::home_dir` become parameters. A path is its sequence of components,
  the root being the component `/`. Path normalisation and `to_string_lossy` are not modelled:
  components are strings.
- `as_bold` and the lower-case `fg`, `bg` and `reset` helpers called in src/segments/mod.rs are not
  in src/format.rs. The colour helpers are taken to be `Fg`, `Bg` and `Reset`. `as_bold` is a
  parameter (`Segments.Emphasis`), so every bold-related statement holds for any emphasis.
- The `print!` calls of the renderers become returned text. The left-to-right walk over the
  segments is `Segments.RenderLeftToRight`: each tile is told of its successor and the last of
  none, as the renderer's `next` parameter implies. src/main.rs is not part of this model, so the
  right-to-left walk, the choice of direction and the unused `_theme` parameter are left out.
  `Prompt.Powerline` carries only the fields the modelled producers use.
- The other segment producers (host, user, ssh, jobs, time, permissions, virtualenv, nix, ps,
  line break), `cli.rs` and the `flame` profiling guards are not modelled.
- SegmentGit.SegmentGit: the `unwrap` on a missing branch name, which aborts the program, is
  returned as `panicked`. A precondition excluding it would drop the repositories that trigger it,
  so the model keeps them reachable and states when the panic happens.
- Integer widths: the git counts (`usize`) and the stash count are unbounded `nat`, so overflow is
  not modelled. Colours are `u8` and code points `u32`, both range-checked as in the source.
- Numerals.ParseU8: the range is checked after the value has been accumulated, whereas Rust checks
  at every step. The answers agree, because the running value never decreases.

## Findings

| source | as written | input that shows it | evidently intended | confidence | as-written member | corrected member |
|---|---|---|---|---|---|---|
| src/segments/segment_git.rs:186 | the stash segment uses `git_conflicted_bg`, foreground 31 and the glyph U+2691 whatever the theme says | a theme file line `git_stashed_fg = 100` and one stash: the segment is still drawn in colour 31 | `git_stashed_bg`, `git_stashed_fg` and `git_stashed_char`, which the theme declares, defaults and lets a file override | not executed | SegmentGit.StashSegmentAsWritten, SegmentGit.StashSegmentIgnoresTheme | SegmentGit.StashSegment, SegmentGit.StashSegmentFollowsLoadedTheme |
