/** src/segments/segment_git.rs: the branch segment (with the ahead and behind counts against the
    upstream) and the stage segments (staged, changed, untracked, conflicted and stashed counts).
    Both share the repository and status caches of the prompt. */
module SegmentGit {
  import opened Wrappers
  import opened Numerals
  import opened Themes
  import opened Segments
  import opened GitRepo
  import opened Prompt
  import opened ThemeLoad

  /** The branch glyph U+E0A0 and a space, put in front of the branch name. */
  const BRANCH_PREFIX: string := "\U{E0A0} "

  /** The text of the segment shown when HEAD cannot be resolved: nothing has been committed. */
  const BIG_BANG: string := "Big Bang"

  /** `discover_if_none`: keeps a cached repository, otherwise caches what discovery found (None when
      the working directory is not inside a repository). `discovered` is the answer
      `Repository::discover(".")` gives. The result says whether a repository is now cached. */
  method DiscoverIfNone(p: Powerline, discovered: Option<Repository>) returns (found: bool)
    requires p.Valid()
    modifies p`git
    ensures p.Valid()
    ensures p.git == if old(p.git).None? then discovered else old(p.git)
    ensures found <==> p.git.Some?
  {
    if p.git.None? {
      p.git := discovered;
      return p.git.Some?;
    }
    return true;
  }

  /** `statuses_if_none`: keeps cached statuses, otherwise caches the status of every path of the
      cached repository (None when that query fails). The result says whether statuses are now
      cached. */
  method StatusesIfNone(p: Powerline) returns (found: bool)
    requires p.Valid() && p.git.Some?
    modifies p`gitStatuses
    ensures p.Valid()
    ensures p.gitStatuses == if old(p.gitStatuses).None? then p.git.value.statuses else old(p.gitStatuses)
    ensures found <==> p.gitStatuses.Some?
    ensures found ==> p.gitStatuses == p.git.value.statuses
  {
    if p.gitStatuses.None? {
      p.gitStatuses := p.git.value.statuses;
      return p.gitStatuses.Some?;
    }
    return true;
  }

  /** A checked-out branch whose name can be read: the entry that ends the walk over the branches. */
  predicate IsNamedHead(e: Option<Branch>)
  {
    e.Some? && e.value.isHead && e.value.name.Some?
  }

  /** What the walk over the local branches leaves: the branch name, and the commit ids of the
      checked-out branch and of its upstream. */
  datatype BranchScan = BranchScan(name: Option<string>, local: Option<Oid>, upstream: Option<Oid>)

  /** The walk over `entries` from the commit ids found so far: every checked-out branch overwrites
      both ids, and the first one whose name can be read ends the walk with that name. */
  function ScanFrom(entries: seq<Option<Branch>>, local: Option<Oid>, upstream: Option<Oid>): BranchScan
    decreases |entries|
  {
    if |entries| == 0 then BranchScan(None, local, upstream)
    else if entries[0].Some? && entries[0].value.isHead then
      var b := entries[0].value;
      if b.name.Some? then BranchScan(b.name, b.target, b.upstreamTarget)
      else ScanFrom(entries[1..], b.target, b.upstreamTarget)
    else ScanFrom(entries[1..], local, upstream)
  }

  function HeadScan(entries: seq<Option<Branch>>): BranchScan
  {
    ScanFrom(entries, None, None)
  }

  /** The loop over `git.branches(Some(BranchType::Local))` in `segment_git`. */
  method FindHeadBranch(entries: seq<Option<Branch>>)
    returns (branchName: Option<string>, local: Option<Oid>, upstream: Option<Oid>)
    ensures BranchScan(branchName, local, upstream) == HeadScan(entries)
  {
    branchName, local, upstream := None, None, None;
    var i := 0;
    while i < |entries|
      invariant 0 <= i <= |entries|
      invariant HeadScan(entries) == ScanFrom(entries[i..], local, upstream)
    {
      assert entries[i..][0] == entries[i] && entries[i..][1..] == entries[i + 1..];
      if entries[i].Some? {
        var branch := entries[i].value;
        if branch.isHead {
          local := branch.target;
          upstream := branch.upstreamTarget;
          if branch.name.Some? {
            branchName := branch.name;
            break;
          }
        }
      }
      i := i + 1;
    }
  }

  /** The walk finds a name exactly when some entry is a checked-out branch with a readable name;
      it then takes the first such entry's name and commit ids. */
  lemma {:induction false} HeadScanFindsFirstNamedHead(entries: seq<Option<Branch>>, local: Option<Oid>, upstream: Option<Oid>)
    ensures ScanFrom(entries, local, upstream).name.Some? <==> exists i :: 0 <= i < |entries| && IsNamedHead(entries[i])
    ensures ScanFrom(entries, local, upstream).name.Some? ==>
      exists i :: 0 <= i < |entries| && IsNamedHead(entries[i])
        && ScanFrom(entries, local, upstream) == BranchScan(entries[i].value.name, entries[i].value.target, entries[i].value.upstreamTarget)
        && forall j :: 0 <= j < i ==> !IsNamedHead(entries[j])
    decreases |entries|
  {
    if |entries| > 0 && !IsNamedHead(entries[0]) {
      var tail := entries[1..];
      var (l, u) := if entries[0].Some? && entries[0].value.isHead
        then (entries[0].value.target, entries[0].value.upstreamTarget) else (local, upstream);
      assert ScanFrom(entries, local, upstream) == ScanFrom(tail, l, u);
      HeadScanFindsFirstNamedHead(tail, l, u);
      if ScanFrom(tail, l, u).name.Some? {
        var i :| 0 <= i < |tail| && IsNamedHead(tail[i])
          && ScanFrom(tail, l, u) == BranchScan(tail[i].value.name, tail[i].value.target, tail[i].value.upstreamTarget)
          && forall j :: 0 <= j < i ==> !IsNamedHead(tail[j]);
        assert entries[i + 1] == tail[i];
        forall j | 0 <= j < i + 1
          ensures !IsNamedHead(entries[j])
        {
          if j > 0 {
            assert entries[j] == tail[j - 1];
          }
        }
      } else {
        forall i | 0 <= i < |entries|
          ensures !IsNamedHead(entries[i])
        {
          if i > 0 {
            assert entries[i] == tail[i - 1];
          }
        }
      }
    }
  }

  /** The name of a detached HEAD: the short id of the commit it points at. */
  function DetachedName(repo: Repository): Option<string>
  {
    match repo.head
    case HeadOk(Some(target)) => if target in repo.shortIds then Some(repo.shortIds[target]) else None
    case _ => None
  }

  /** `format!("{} {}", glyph, n)`: the text of a count segment. */
  function CountText(glyph: char, n: nat): (s: string)
  {
    [glyph] + " " + Decimal(n)
  }

  /** A count text reads back as its glyph and its number. */
  lemma CountTextDecodes(glyph: char, n: nat)
    ensures |CountText(glyph, n)| >= 3
    ensures CountText(glyph, n)[0] == glyph && CountText(glyph, n)[1] == ' '
    ensures ParseUnsigned(CountText(glyph, n)[2..], 10) == Some(n)
  {
    DecimalWellFormed(n);
    DecimalValue(n);
    assert CountText(glyph, n)[2..] == Decimal(n);
  }

  /** The ahead and behind segments: one for each direction in which the checked-out branch and its
      upstream differ, when both commits are known and the graph walk succeeds. */
  function AheadBehindSegments(repo: Repository, scan: BranchScan, theme: Theme): (segs: seq<Segment>)
    ensures |segs| <= 2
  {
    if scan.local.Some? && scan.upstream.Some? && (scan.local.value, scan.upstream.value) in repo.aheadBehind then
      var (ahead, behind) := repo.aheadBehind[(scan.local.value, scan.upstream.value)];
      (if ahead > 0 then [Segment.New(theme.gitAheadBg, theme.gitAheadFg, CountText(theme.gitAheadChar, ahead))] else [])
      + (if behind > 0 then [Segment.New(theme.gitBehindBg, theme.gitBehindFg, CountText(theme.gitBehindChar, behind))] else [])
    else []
  }

  /** The segments `segment_git` pushes for a discovered repository, and whether it panics on
      `branch_name.unwrap()`. */
  datatype Pushed = Pushed(segments: seq<Segment>, panics: bool)

  /** Whether `segment_git` gets as far as asking for the statuses: the branch listing succeeds and,
      if no branch name was found, HEAD can be read. */
  predicate ReachesStatuses(repo: Repository)
  {
    repo.branches.Some?
    && (HeadScan(repo.branches.value).name.Some? || repo.head.HeadOk?)
  }

  /** The branch name `segment_git` shows: the checked-out branch's, or else the short id of a
      detached HEAD. */
  function BranchName(repo: Repository): Option<string>
    requires repo.branches.Some?
  {
    var scan := HeadScan(repo.branches.value);
    if scan.name.Some? then scan.name else DetachedName(repo)
  }

  /** `segment_git` for a discovered repository whose status cache holds `cached`. */
  function GitPush(repo: Repository, cached: Option<seq<Status>>, theme: Theme): Pushed
  {
    if repo.branches.None? then Pushed([], false)
    else if !ReachesStatuses(repo) then Pushed([Segment.New(theme.gitDirtyBg, theme.gitDirtyFg, BIG_BANG)], false)
    else
      var statuses := if cached.Some? then cached else repo.statuses;
      if statuses.None? then Pushed([], false)
      else match BranchName(repo)
        case None => Pushed([], true)
        case Some(name) =>
          Pushed([BranchSegment(statuses.value, name, theme)]
                 + AheadBehindSegments(repo, HeadScan(repo.branches.value), theme), false)
  }

  /** The branch segment: the branch glyph and the name, on the clean colours when no path has a
      status and on the dirty colours otherwise. */
  function BranchSegment(statuses: seq<Status>, name: string, theme: Theme): Segment
  {
    var clean := |statuses| == 0;
    Segment.New(if clean then theme.gitCleanBg else theme.gitDirtyBg,
                if clean then theme.gitCleanFg else theme.gitDirtyFg,
                BRANCH_PREFIX + name)
  }

  /** `segment_git`: discovers the repository if need be, finds the branch name (or the short id of
      a detached HEAD), and pushes the branch segment on the clean colours when no path has a status
      and on the dirty colours otherwise, then the ahead and behind counts. An unreadable HEAD gives
      the single "Big Bang" segment. `panicked` reports the `unwrap` of a missing name, which aborts
      the program. */
  method SegmentGit(p: Powerline, discovered: Option<Repository>) returns (panicked: bool)
    requires p.Valid()
    modifies p`git, p`gitStatuses, p`segments
    ensures p.Valid()
    ensures p.git == if old(p.git).None? then discovered else old(p.git)
    ensures p.git.None? ==> p.segments == old(p.segments) && p.gitStatuses == old(p.gitStatuses) && !panicked
    ensures p.git.Some? ==>
      var pushed := GitPush(p.git.value, old(p.gitStatuses), p.theme);
      p.segments == old(p.segments) + pushed.segments && panicked == pushed.panics
    ensures p.git.Some? ==>
      p.gitStatuses == if ReachesStatuses(p.git.value) && old(p.gitStatuses).None?
                       then p.git.value.statuses else old(p.gitStatuses)
  {
    var found := DiscoverIfNone(p, discovered);
    if !found {
      return false;
    }
    var git := p.git.value;
    if git.branches.None? {
      return false;
    }
    var branchName, local, upstream := FindHeadBranch(git.branches.value);
    if branchName.None? {
      match git.head {
        case HeadOk(target) =>
          if target.Some? {
            branchName := if target.value in git.shortIds then Some(git.shortIds[target.value]) else None;
          }
        case HeadErr =>
          p.segments := p.segments + [Segment.New(p.theme.gitDirtyBg, p.theme.gitDirtyFg, BIG_BANG)];
          return false;
      }
    }
    assert branchName == BranchName(git);
    var ok := StatusesIfNone(p);
    if !ok {
      return false;
    }
    if branchName.None? {
      return true;
    }
    PushBranchSegments(p, git, p.gitStatuses.value, branchName.value, BranchScan(branchName, local, upstream));
    return false;
  }

  /** The end of `segment_git`: the branch segment, on the clean colours when no path has a status
      and on the dirty ones otherwise, then the ahead and behind counts. */
  method PushBranchSegments(p: Powerline, git: Repository, statuses: seq<Status>, name: string, scan: BranchScan)
    modifies p`segments
    ensures p.segments == old(p.segments) + [BranchSegment(statuses, name, p.theme)]
                          + AheadBehindSegments(git, scan, p.theme)
  {
    var bg, fg := p.theme.gitDirtyBg, p.theme.gitDirtyFg;
    if |statuses| == 0 {
      bg := p.theme.gitCleanBg;
      fg := p.theme.gitCleanFg;
    }
    p.segments := p.segments + [Segment.New(bg, fg, BRANCH_PREFIX + name)];
    ghost var pushedBranch := p.segments;
    var local, upstream := scan.local, scan.upstream;
    if local.Some? && upstream.Some? && (local.value, upstream.value) in git.aheadBehind {
      var (ahead, behind) := git.aheadBehind[(local.value, upstream.value)];
      if ahead > 0 {
        p.segments := p.segments + [Segment.New(p.theme.gitAheadBg, p.theme.gitAheadFg, CountText(p.theme.gitAheadChar, ahead))];
      }
      if behind > 0 {
        p.segments := p.segments + [Segment.New(p.theme.gitBehindBg, p.theme.gitBehindFg, CountText(p.theme.gitBehindChar, behind))];
      }
    }
    assert p.segments == pushedBranch + AheadBehindSegments(git, scan, p.theme);
  }

  /** `segment_git` panics exactly when it reaches the statuses, they can be read, and neither a
      branch name nor the short id of a detached HEAD is available. */
  lemma GitPanicsIffNoName(repo: Repository, cached: Option<seq<Status>>, theme: Theme)
    ensures GitPush(repo, cached, theme).panics <==>
      ReachesStatuses(repo) && (cached.Some? || repo.statuses.Some?) && BranchName(repo).None?
  {
  }

  /** When it does not panic, `segment_git` pushes at most three segments: "Big Bang" alone, or the
      branch segment, whose text is the branch glyph and the name, followed by the ahead and behind
      segments of the checked-out branch. */
  lemma GitPushShape(repo: Repository, cached: Option<seq<Status>>, theme: Theme)
    requires !GitPush(repo, cached, theme).panics
    ensures var segs := GitPush(repo, cached, theme).segments;
      |segs| <= 3
      && (|segs| > 0 && segs[0].text == BIG_BANG ==> |segs| == 1)
      && (|segs| > 0 && segs[0].text != BIG_BANG ==>
            repo.branches.Some? && segs[0].text == BRANCH_PREFIX + BranchName(repo).value
            && segs[1..] == AheadBehindSegments(repo, HeadScan(repo.branches.value), theme))
  {
    var segs := GitPush(repo, cached, theme).segments;
    if |segs| > 0 && segs[0].text != BIG_BANG && ReachesStatuses(repo) {
      assert BRANCH_PREFIX[0] != BIG_BANG[0];
    }
  }

  /** "Big Bang" is pushed exactly when the branches can be listed, none of them is a checked-out
      branch with a readable name, and HEAD cannot be read; it is then the only segment, on the
      dirty colours. */
  lemma BigBangIffHeadError(repo: Repository, cached: Option<seq<Status>>, theme: Theme)
    ensures var segs := GitPush(repo, cached, theme).segments;
      (|segs| > 0 && segs[0].text == BIG_BANG)
        <==> repo.branches.Some? && HeadScan(repo.branches.value).name.None? && repo.head.HeadErr?
    ensures repo.branches.Some? && HeadScan(repo.branches.value).name.None? && repo.head.HeadErr? ==>
      GitPush(repo, cached, theme) == Pushed([Segment.New(theme.gitDirtyBg, theme.gitDirtyFg, BIG_BANG)], false)
  {
    var segs := GitPush(repo, cached, theme).segments;
    if |segs| > 0 && ReachesStatuses(repo) {
      assert BRANCH_PREFIX[0] != BIG_BANG[0];
    }
  }

  /** The branch segment is drawn on the clean colours when no path has a status and on the dirty
      colours otherwise, for every theme (the default theme gives both states the same background);
      when the theme tells the two backgrounds apart, the background alone says which it is. */
  lemma BranchCleanIffNoStatus(repo: Repository, cached: Option<seq<Status>>, theme: Theme)
    requires ReachesStatuses(repo) && BranchName(repo).Some?
    requires cached.Some? || repo.statuses.Some?
    ensures var statuses := if cached.Some? then cached.value else repo.statuses.value;
      var branch := GitPush(repo, cached, theme).segments[0];
      (|statuses| == 0 ==> branch.bg == theme.gitCleanBg && branch.fg == theme.gitCleanFg)
      && (|statuses| > 0 ==> branch.bg == theme.gitDirtyBg && branch.fg == theme.gitDirtyFg)
      && (theme.gitCleanBg != theme.gitDirtyBg ==> (branch.bg == theme.gitCleanBg <==> |statuses| == 0))
  {
  }

  /** The ahead segment is shown exactly when the branch is ahead of its upstream, with the number
      of commits; likewise the behind segment. */
  lemma AheadBehindCounts(repo: Repository, scan: BranchScan, theme: Theme, ahead: nat, behind: nat)
    requires scan.local.Some? && scan.upstream.Some?
    requires (scan.local.value, scan.upstream.value) in repo.aheadBehind
    requires repo.aheadBehind[(scan.local.value, scan.upstream.value)] == (ahead, behind)
    ensures var segs := AheadBehindSegments(repo, scan, theme);
      |segs| == (if ahead > 0 then 1 else 0) + (if behind > 0 then 1 else 0)
      && (ahead > 0 ==> segs[0].text == CountText(theme.gitAheadChar, ahead))
      && (behind > 0 ==> segs[|segs| - 1].text == CountText(theme.gitBehindChar, behind))
  {
  }

  // The stage segments.

  /** The four kinds of path status the stage segments count. */
  datatype Kind = Staged | Changed | Untracked | Conflicted

  /** Whether a path of status `s` counts towards `kind`. A path may count towards several kinds; a
      path renamed in the working tree only (`WT_RENAMED`) counts towards none. */
  predicate HasKind(s: Status, kind: Kind)
  {
    match kind
    case Staged =>
      Contains(s, INDEX_NEW) || Contains(s, INDEX_MODIFIED) || Contains(s, INDEX_TYPECHANGE)
      || Contains(s, INDEX_RENAMED) || Contains(s, INDEX_DELETED)
    case Changed => Contains(s, WT_MODIFIED) || Contains(s, WT_TYPECHANGE) || Contains(s, WT_DELETED)
    case Untracked => Contains(s, WT_NEW)
    case Conflicted => Contains(s, CONFLICTED)
  }

  /** The number of paths of `kind`. */
  function Count(statuses: seq<Status>, kind: Kind): (n: nat)
    ensures n <= |statuses|
    decreases |statuses|
  {
    if |statuses| == 0 then 0
    else Count(statuses[..|statuses| - 1], kind) + (if HasKind(statuses[|statuses| - 1], kind) then 1 else 0)
  }

  /** The positions of the paths of `kind`. */
  function Positions(statuses: seq<Status>, kind: Kind): set<nat>
  {
    set i: nat | i < |statuses| && HasKind(statuses[i], kind)
  }

  /** The count is the number of paths of that kind, each path counted once. */
  lemma {:induction false} CountIsPositions(statuses: seq<Status>, kind: Kind)
    ensures Count(statuses, kind) == |Positions(statuses, kind)|
    decreases |statuses|
  {
    if |statuses| > 0 {
      var n := |statuses| - 1;
      var front := statuses[..n];
      CountIsPositions(front, kind);
      PositionsSnoc(statuses, kind);
      var prefix := Positions(front, kind);
      if HasKind(statuses[n], kind) {
        assert Count(statuses, kind) == Count(front, kind) + 1;
        assert Positions(statuses, kind) == prefix + {n};
        assert |prefix + {n}| == |prefix| + 1;
      } else {
        assert Count(statuses, kind) == Count(front, kind);
        assert Positions(statuses, kind) == prefix + {};
        assert prefix + {} == prefix;
      }
    }
  }

  /** The positions of a non-empty list: those of all but its last entry, and the last one if it
      has the kind. */
  lemma PositionsSnoc(statuses: seq<Status>, kind: Kind)
    requires |statuses| > 0
    ensures var n := |statuses| - 1;
      Positions(statuses, kind)
        == Positions(statuses[..n], kind) + (if HasKind(statuses[n], kind) then {n} else {})
      && n !in Positions(statuses[..n], kind)
  {
    var n := |statuses| - 1;
    var front := statuses[..n];
    var last: set<nat> := if HasKind(statuses[n], kind) then {n} else {};
    var whole := Positions(statuses, kind);
    var prefix := Positions(front, kind);
    forall i | i in whole
      ensures i in prefix + last
    {
      if i < n {
        assert statuses[i] == front[i];
      }
    }
    forall i | i in prefix + last
      ensures i in whole
    {
      if i < n {
        assert statuses[i] == front[i];
      }
    }
  }


  /** The tallies of the four kinds and of the stashes. */
  datatype Tally = Tally(staged: nat, changed: nat, untracked: nat, conflicted: nat, stashes: nat)

  function TallyOf(statuses: seq<Status>, stashes: nat): Tally
  {
    Tally(Count(statuses, Staged), Count(statuses, Changed), Count(statuses, Untracked),
          Count(statuses, Conflicted), stashes)
  }

  /** The stage segments, in the order staged, changed, untracked, conflicted, stashed, each shown
      only when its count is positive, on the theme's colours and glyph for its kind. */
  function StageSegments(t: Tally, theme: Theme): seq<Segment>
  {
    StagedPart(t, theme) + ChangedPart(t, theme) + UntrackedPart(t, theme) + ConflictedPart(t, theme)
    + StashPart(t, theme)
  }

  function StagedPart(t: Tally, theme: Theme): seq<Segment>
  {
    if t.staged > 0 then [Segment.New(theme.gitStagedBg, theme.gitStagedFg, CountText(theme.gitStagedChar, t.staged))] else []
  }

  function ChangedPart(t: Tally, theme: Theme): seq<Segment>
  {
    if t.changed > 0 then [Segment.New(theme.gitChangedBg, theme.gitChangedFg, CountText(theme.gitChangedChar, t.changed))] else []
  }

  function UntrackedPart(t: Tally, theme: Theme): seq<Segment>
  {
    if t.untracked > 0 then [Segment.New(theme.gitUntrackedBg, theme.gitUntrackedFg, CountText(theme.gitUntrackedChar, t.untracked))] else []
  }

  function ConflictedPart(t: Tally, theme: Theme): seq<Segment>
  {
    if t.conflicted > 0 then [Segment.New(theme.gitConflictedBg, theme.gitConflictedFg, CountText(theme.gitConflictedChar, t.conflicted))] else []
  }

  function StashPart(t: Tally, theme: Theme): seq<Segment>
  {
    if t.stashes > 0 then [StashSegment(t.stashes, theme)] else []
  }

  lemma AppendParts<T>(start: seq<T>, a: seq<T>, b: seq<T>, c: seq<T>, d: seq<T>, e: seq<T>)
    ensures start + a + b + c + d + e == start + (a + b + c + d + e)
  {
    assert start + a + b == start + (a + b);
    assert start + (a + b) + c == start + (a + b + c);
    assert start + (a + b + c) + d == start + (a + b + c + d);
  }

  /** The stash segment on the theme's stash colours and glyph. */
  function StashSegment(stashes: nat, theme: Theme): Segment
  {
    Segment.New(theme.gitStashedBg, theme.gitStashedFg, CountText(theme.gitStashedChar, stashes))
  }

  /** The stash segment as src/segments/segment_git.rs:186 writes it: the conflicted background,
      foreground 31 and the glyph U+2691, whatever the theme says. */
  function StashSegmentAsWritten(stashes: nat, theme: Theme): Segment
  {
    Segment.New(theme.gitConflictedBg, 31, CountText('\U{2691}', stashes))
  }

  /** The written stash segment agrees with the theme's stash entries only because the default theme
      happens to choose the same values; a theme that overrides `git_stashed_fg` is ignored. */
  lemma StashSegmentIgnoresTheme()
    ensures StashSegmentAsWritten(1, DEFAULT) == StashSegment(1, DEFAULT)
    ensures var t := DEFAULT.(gitStashedFg := 100);
      StashSegmentAsWritten(1, t).fg == 31 && StashSegment(1, t).fg == 100
  {
  }

  /** The position of `git_stashed_fg` in the colour name table. */
  const STASHED_FG: ColorField := 39

  lemma StashedFgField(t: Theme)
    ensures COLOR_NAMES[STASHED_FG] == "git_stashed_fg"
    ensures Color(t, STASHED_FG) == t.gitStashedFg
  {
    assert COLOR_NAMES[STASHED_FG] == COLOR_NAMES_4[7];
    assert Colors(t)[STASHED_FG] == ColorSlice4(t)[7];
  }

  /** A theme file whose last `git_stashed_fg` line sets `v` draws the corrected stash segment in
      colour `v`, while the segment as written stays in colour 31. */
  lemma StashSegmentFollowsLoadedTheme(t: Theme, es: seq<LineEffect>, stashes: nat, v: u8)
    requires ApplyEffects(t, es).Ok?
    requires LastColor(es, STASHED_FG) == Some(v)
    ensures StashSegment(stashes, ApplyEffects(t, es).value).fg == v
    ensures StashSegmentAsWritten(stashes, ApplyEffects(t, es).value).fg == 31
  {
    LastColorWins(t, es, STASHED_FG);
    StashedFgField(ApplyEffects(t, es).value);
  }

  /** One stage segment per positive count, so at most five. */
  lemma StageSegmentsCount(t: Tally, theme: Theme)
    ensures |StageSegments(t, theme)| ==
      (if t.staged > 0 then 1 else 0) + (if t.changed > 0 then 1 else 0) + (if t.untracked > 0 then 1 else 0)
      + (if t.conflicted > 0 then 1 else 0) + (if t.stashes > 0 then 1 else 0)
  {
  }

  /** A clean tree with no stash shows no stage segment, and a segment is shown for every kind
      present. */
  lemma {:induction false} StageSegmentsEmptyIffClean(statuses: seq<Status>, stashes: nat, theme: Theme)
    ensures StageSegments(TallyOf(statuses, stashes), theme) == [] <==>
      stashes == 0 && forall i :: 0 <= i < |statuses| ==>
        !HasKind(statuses[i], Staged) && !HasKind(statuses[i], Changed)
        && !HasKind(statuses[i], Untracked) && !HasKind(statuses[i], Conflicted)
  {
    StageSegmentsCount(TallyOf(statuses, stashes), theme);
    CountIsPositions(statuses, Staged);
    CountIsPositions(statuses, Changed);
    CountIsPositions(statuses, Untracked);
    CountIsPositions(statuses, Conflicted);
    forall kind: Kind
      ensures Count(statuses, kind) == 0 <==> forall i :: 0 <= i < |statuses| ==> !HasKind(statuses[i], kind)
    {
      CountIsPositions(statuses, kind);
      if Count(statuses, kind) == 0 {
        assert Positions(statuses, kind) == {};
        forall i | 0 <= i < |statuses|
          ensures !HasKind(statuses[i], kind)
        {
          assert i !in Positions(statuses, kind);
        }
      } else {
        var i :| i in Positions(statuses, kind);
      }
    }
  }

  /** A path staged and then modified again counts as staged and as changed; a new file outside the
      index counts as untracked only. */
  lemma KindsOverlap()
    ensures TallyOf([INDEX_MODIFIED | WT_MODIFIED, WT_NEW], 0) == Tally(1, 1, 1, 0, 0)
    ensures TallyOf([WT_RENAMED], 0) == Tally(0, 0, 0, 0, 0)
  {
    var both := INDEX_MODIFIED | WT_MODIFIED;
    assert both == 258;
    assert HasKind(both, Staged) && HasKind(both, Changed) && !HasKind(both, Untracked) && !HasKind(both, Conflicted);
    assert HasKind(WT_NEW, Untracked) && !HasKind(WT_NEW, Staged) && !HasKind(WT_NEW, Changed) && !HasKind(WT_NEW, Conflicted);
    assert !HasKind(WT_RENAMED, Staged) && !HasKind(WT_RENAMED, Changed);
    assert !HasKind(WT_RENAMED, Untracked) && !HasKind(WT_RENAMED, Conflicted);
    var one, two := [both], [both, WT_NEW];
    assert two[..1] == one && one[..0] == [];
    assert Count(one, Staged) == 1 && Count(one, Changed) == 1;
    assert Count(one, Untracked) == 0 && Count(one, Conflicted) == 0;
    assert [WT_RENAMED][..0] == [];
  }

  /** A path new in the index and a path new in the working tree give one staged and one
      untracked path, and nothing changed or conflicted. */
  lemma NewPathsClassified()
    ensures TallyOf([INDEX_NEW, WT_NEW], 0) == Tally(1, 0, 1, 0, 0)
  {
    assert HasKind(INDEX_NEW, Staged) && !HasKind(INDEX_NEW, Changed);
    assert !HasKind(INDEX_NEW, Untracked) && !HasKind(INDEX_NEW, Conflicted);
    assert HasKind(WT_NEW, Untracked) && !HasKind(WT_NEW, Staged);
    assert !HasKind(WT_NEW, Changed) && !HasKind(WT_NEW, Conflicted);
    var one, two := [INDEX_NEW], [INDEX_NEW, WT_NEW];
    assert two[..1] == one && one[..0] == [];
    assert Count(one, Staged) == 1 && Count(one, Changed) == 0;
    assert Count(one, Untracked) == 0 && Count(one, Conflicted) == 0;
  }

  /** The counting loop of `segment_gitstage`: one pass over the statuses, each path adding one to
      every kind it belongs to. */
  method CountStatuses(statuses: seq<Status>, stashes: nat) returns (t: Tally)
    ensures t == TallyOf(statuses, stashes)
  {
    var staged, changed, untracked, conflicted := 0, 0, 0, 0;
    for i := 0 to |statuses|
      invariant staged == Count(statuses[..i], Staged)
      invariant changed == Count(statuses[..i], Changed)
      invariant untracked == Count(statuses[..i], Untracked)
      invariant conflicted == Count(statuses[..i], Conflicted)
    {
      var status := statuses[i];
      assert statuses[..i + 1][..i] == statuses[..i];
      if Contains(status, INDEX_NEW) || Contains(status, INDEX_MODIFIED) || Contains(status, INDEX_TYPECHANGE)
         || Contains(status, INDEX_RENAMED) || Contains(status, INDEX_DELETED) {
        staged := staged + 1;
      }
      if Contains(status, WT_MODIFIED) || Contains(status, WT_TYPECHANGE) || Contains(status, WT_DELETED) {
        changed := changed + 1;
      }
      if Contains(status, WT_NEW) {
        untracked := untracked + 1;
      }
      if Contains(status, CONFLICTED) {
        conflicted := conflicted + 1;
      }
    }
    assert statuses[..|statuses|] == statuses;
    return Tally(staged, changed, untracked, conflicted, stashes);
  }

  /** The pushes that end `segment_gitstage`, one per positive count. */
  method PushStageSegments(p: Powerline, t: Tally)
    modifies p`segments
    ensures p.segments == old(p.segments) + StageSegments(t, p.theme)
  {
    var theme := p.theme;
    ghost var start := p.segments;
    if t.staged > 0 {
      p.segments := p.segments + [Segment.New(theme.gitStagedBg, theme.gitStagedFg, CountText(theme.gitStagedChar, t.staged))];
    }
    assert p.segments == start + StagedPart(t, theme);
    if t.changed > 0 {
      p.segments := p.segments + [Segment.New(theme.gitChangedBg, theme.gitChangedFg, CountText(theme.gitChangedChar, t.changed))];
    }
    assert p.segments == start + StagedPart(t, theme) + ChangedPart(t, theme);
    if t.untracked > 0 {
      p.segments := p.segments + [Segment.New(theme.gitUntrackedBg, theme.gitUntrackedFg, CountText(theme.gitUntrackedChar, t.untracked))];
    }
    ghost var upTo := start + StagedPart(t, theme) + ChangedPart(t, theme) + UntrackedPart(t, theme);
    assert p.segments == upTo;
    if t.conflicted > 0 {
      p.segments := p.segments + [Segment.New(theme.gitConflictedBg, theme.gitConflictedFg, CountText(theme.gitConflictedChar, t.conflicted))];
    }
    assert p.segments == upTo + ConflictedPart(t, theme);
    if t.stashes > 0 {
      p.segments := p.segments + [StashSegment(t.stashes, theme)];
    }
    AppendParts(start, StagedPart(t, theme), ChangedPart(t, theme), UntrackedPart(t, theme),
                ConflictedPart(t, theme), StashPart(t, theme));
  }

  /** `segment_gitstage`: discovers the repository and reads its statuses if need be, counts the
      paths of each kind and the stashes, and pushes one segment per positive count. */
  method SegmentGitstage(p: Powerline, discovered: Option<Repository>)
    requires p.Valid()
    modifies p`git, p`gitStatuses, p`segments
    ensures p.Valid()
    ensures p.git == if old(p.git).None? then discovered else old(p.git)
    ensures p.git.None? ==> p.gitStatuses == old(p.gitStatuses)
    ensures p.git.Some? ==>
      p.gitStatuses == if old(p.gitStatuses).None? then p.git.value.statuses else old(p.gitStatuses)
    ensures p.segments == old(p.segments) +
      if p.gitStatuses.Some? then StageSegments(TallyOf(p.gitStatuses.value, p.git.value.stashes), p.theme)
      else []
  {
    var found := DiscoverIfNone(p, discovered);
    if !found {
      return;
    }
    var ok := StatusesIfNone(p);
    if !ok {
      return;
    }
    var t := CountStatuses(p.gitStatuses.value, p.git.value.stashes);
    PushStageSegments(p, t);
  }
}
