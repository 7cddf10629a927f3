/** src/segments/segment_cwd.rs: the working directory, shown relative to the home directory when
    inside it, shortened to its last components when deeper than the configured maximum, with the
    last component in bold. A path is the sequence of components `Path::iter` yields: an absolute
    path starts with the root component "/". */
module SegmentCwd {
  import opened Wrappers
  import opened Numerals
  import opened Text
  import Format
  import opened Segments
  import opened Prompt

  /** The marker put in place of the components left out. The source writes the UTF-8 bytes of
      U+2026 as if each byte were a character of its own: "/", U+00E2, U+20AC, U+00A6. */
  const ELLIPSIS: string := "/\U{E2}\U{20AC}\U{A6}"

  /** The components shown instead of the current directory when it cannot be read. */
  const UNREADABLE_CWD: seq<string> := ["error"]

  /** Where the prompt is: whether inside the home directory, and the components left after the
      home directory (or the root) is taken off. */
  datatype Located = Located(inHome: bool, components: seq<string>)

  /** `Path::strip_prefix`: the components after `base` when `path` starts with all of them. */
  function StripPrefix(path: seq<string>, base: seq<string>): (r: Option<seq<string>>)
    ensures r.Some? ==> path == base + r.value
    ensures r.None? <==> !(|base| <= |path| && path[..|base|] == base)
  {
    if |base| <= |path| && path[..|base|] == base then
      assert path == path[..|base|] + path[|base|..];
      Some(path[|base|..])
    else None
  }

  /** The first half of `simple_cwd_string`: the home directory is taken off when it is a prefix of
      the current directory, otherwise the root is; without a home directory nothing is taken off.
      `cwd` and `home` are the answers of `env::current_dir` and `dirs::home_dir`. */
  function Locate(cwd: Option<seq<string>>, home: Option<seq<string>>): Located
  {
    var path := cwd.GetOr(UNREADABLE_CWD);
    match home
    case None => Located(false, path)
    case Some(h) =>
      match StripPrefix(path, h)
      case Some(rest) => Located(true, rest)
      case None =>
        match StripPrefix(path, ["/"])
        case Some(rest) => Located(false, rest)
        case None => Located(false, path)
  }

  /** How many leading components are left out: none when the maximum depth is 0 (no limit) or not
      exceeded, otherwise as many as exceed it. */
  function ToSkip(length: nat, maxDepth: u8): (skip: nat)
    ensures skip <= length
  {
    if maxDepth > 0 && length > maxDepth then length - maxDepth else 0
  }

  /** Each component preceded by a separating "/". */
  function Joined(parts: seq<string>): string
  {
    if |parts| == 0 then "" else Joined(parts[..|parts| - 1]) + "/" + parts[|parts| - 1]
  }

  lemma JoinedSnoc(parts: seq<string>, last: string)
    ensures Joined(parts + [last]) == Joined(parts) + "/" + last
  {
    assert (parts + [last])[..|parts|] == parts;
  }

  /** The shown components, each after a "/", the last one emphasised. */
  function Trail(shell: Format.Shell, shown: seq<string>, asBold: Emphasis): string
    requires |shown| > 0
  {
    Joined(shown[..|shown| - 1]) + "/" + asBold(shell, shown[|shown| - 1])
  }

  /** "~" inside the home directory, nothing elsewhere. */
  function HomePrefix(inHome: bool): string
  {
    if inHome then "~" else ""
  }

  /** The ellipsis when components are left out, nothing otherwise. */
  function Elision(skip: nat): string
  {
    if skip > 0 then ELLIPSIS else ""
  }

  /** The text `simple_cwd_string` returns for a located directory. */
  function CwdText(shell: Format.Shell, maxDepth: u8, loc: Located, asBold: Emphasis): string
  {
    var comps := loc.components;
    if |comps| == 0 then asBold(shell, if loc.inHome then "~" else "/")
    else
      var skip := ToSkip(|comps|, maxDepth);
      HomePrefix(loc.inHome) + Elision(skip) + Trail(shell, comps[skip..], asBold)
  }

  /** The first half of `simple_cwd_string`: the path to show and whether it is inside the home
      directory. */
  method LocateCwd(cwd: Option<seq<string>>, home: Option<seq<string>>) returns (inHome: bool, path: seq<string>)
    ensures Located(inHome, path) == Locate(cwd, home)
  {
    inHome := false;
    path := if cwd.Some? then cwd.value else UNREADABLE_CWD;
    if home.Some? {
      var stripped := StripPrefix(path, home.value);
      if stripped.Some? {
        inHome := true;
        path := stripped.value;
      } else {
        stripped := StripPrefix(path, ["/"]);
        if stripped.Some? {
          path := stripped.value;
        }
      }
    }
  }

  /** `simple_cwd_string`. */
  method SimpleCwdString(shell: Format.Shell, maxDepth: u8, cwd: Option<seq<string>>, home: Option<seq<string>>, asBold: Emphasis)
    returns (out: string)
    ensures out == CwdText(shell, maxDepth, Locate(cwd, home), asBold)
  {
    var inHome, path := LocateCwd(cwd, home);
    var length := |path|;
    var toSkip := if maxDepth > 0 && length > maxDepth as int then length - maxDepth as int else 0;
    assert toSkip == ToSkip(length, maxDepth);
    if length == 0 {
      var loc := if inHome then "~" else "/";
      return asBold(shell, loc);
    }
    out := if inHome then "~" else "";
    if toSkip > 0 {
      out := out + ELLIPSIS;
    }
    out := WriteComponents(shell, path, toSkip, asBold, out);
  }

  /** The loop of `simple_cwd_string`: appends "/" and each component from `from` on, the last one
      emphasised, to `prefix`. */
  method WriteComponents(shell: Format.Shell, path: seq<string>, from: nat, asBold: Emphasis, prefix: string)
    returns (out: string)
    requires from < |path|
    ensures out == prefix + Trail(shell, path[from..], asBold)
  {
    var length := |path|;
    out := prefix;
    var i := from;
    assert path[from..i] == [];
    while i < length
      invariant from <= i <= length
      invariant i < length ==> out == prefix + Joined(path[from..i])
      invariant i == length ==> out == prefix + Trail(shell, path[from..], asBold)
    {
      var dir := path[i];
      out := out + "/";
      if i + 1 == length {
        out := out + asBold(shell, dir);
        LastStep(shell, path, from, asBold);
        assert out == prefix + (Joined(path[from..i]) + "/" + asBold(shell, dir));
      } else {
        JoinedSnoc(path[from..i], dir);
        assert path[from..i + 1] == path[from..i] + [dir];
        out := out + dir;
        assert out == prefix + (Joined(path[from..i]) + "/" + dir);
      }
      i := i + 1;
    }
  }

  lemma LastStep(shell: Format.Shell, path: seq<string>, from: nat, asBold: Emphasis)
    requires from < |path|
    ensures Trail(shell, path[from..], asBold) == Joined(path[from..|path| - 1]) + "/" + asBold(shell, path[|path| - 1])
  {
    assert path[from..][..|path| - from - 1] == path[from..|path| - 1];
  }

  /** `segment_cwd`: the directory text on the path colours, marked as needing no escaping. */
  method SegmentCwd(p: Powerline, maxDepth: u8, cwd: Option<seq<string>>, home: Option<seq<string>>, asBold: Emphasis)
    modifies p`segments
    ensures p.segments == old(p.segments) +
      [Segment.New(p.theme.pathBg, p.theme.pathFg, CwdText(p.shell, maxDepth, Locate(cwd, home), asBold)).DontEscape()]
  {
    var text := SimpleCwdString(p.shell, maxDepth, cwd, home, asBold);
    p.segments := p.segments + [Segment.New(p.theme.pathBg, p.theme.pathFg, text).DontEscape()];
  }

  /** The text is the home marker, the ellipsis when components are left out, and then exactly the
      last components (all of them without a limit, otherwise at most the maximum depth), in
      order, separated by "/", with only the last one emphasised. */
  lemma ShownComponents(shell: Format.Shell, maxDepth: u8, loc: Located, asBold: Emphasis)
    requires |loc.components| > 0
    ensures var comps := loc.components;
      var skip := ToSkip(|comps|, maxDepth);
      var shown := comps[skip..|comps| - 1] + [asBold(shell, comps[|comps| - 1])];
      |shown| == (if maxDepth == 0 || |comps| <= maxDepth as int then |comps| else maxDepth as int)
      && CwdText(shell, maxDepth, loc, asBold) == HomePrefix(loc.inHome) + Elision(skip) + "/" + Intercalate(shown)
  {
    var comps := loc.components;
    var skip := ToSkip(|comps|, maxDepth);
    var n := |comps| - 1;
    var last := asBold(shell, comps[n]);
    var front := comps[skip..n];
    assert comps[skip..][..|comps[skip..]| - 1] == front;
    JoinedSnoc(front, last);
    JoinedIsIntercalate(front + [last]);
    assert Trail(shell, comps[skip..], asBold) == Joined(front + [last]);
  }

  /** Inside the home directory the text starts with "~", elsewhere with "/" (for a directory below
      the home directory or the root). */
  lemma HomeMarker(shell: Format.Shell, maxDepth: u8, loc: Located, asBold: Emphasis)
    requires |loc.components| > 0
    ensures var text := CwdText(shell, maxDepth, loc, asBold);
      |text| > 0 && (text[0] == '~' <==> loc.inHome) && (!loc.inHome ==> text[0] == '/')
  {
    var comps := loc.components;
    var skip := ToSkip(|comps|, maxDepth);
    var trail := Trail(shell, comps[skip..], asBold);
    TrailStartsWithSlash(shell, comps[skip..], asBold);
    var rest := Elision(skip) + trail;
    assert rest[0] == '/';
    assert CwdText(shell, maxDepth, loc, asBold) == HomePrefix(loc.inHome) + rest;
  }

  lemma TrailStartsWithSlash(shell: Format.Shell, shown: seq<string>, asBold: Emphasis)
    requires |shown| > 0
    ensures |Trail(shell, shown, asBold)| > 0 && Trail(shell, shown, asBold)[0] == '/'
  {
    JoinedStartsWithSlash(shown[..|shown| - 1], asBold(shell, shown[|shown| - 1]));
  }

  lemma {:induction false} JoinedStartsWithSlash(parts: seq<string>, last: string)
    ensures var s := Joined(parts) + "/" + last; |s| > 0 && s[0] == '/'
    decreases |parts|
  {
    if |parts| > 0 {
      var front := parts[..|parts| - 1];
      JoinedStartsWithSlash(front, parts[|parts| - 1]);
      assert Joined(parts) == Joined(front) + "/" + parts[|parts| - 1];
    }
  }

  /** When components are left out the text says so: the ellipsis follows the home marker. */
  lemma TruncationMarked(shell: Format.Shell, maxDepth: u8, loc: Located, asBold: Emphasis)
    requires maxDepth > 0 && |loc.components| > maxDepth as int
    ensures StartsWith(CwdText(shell, maxDepth, loc, asBold), HomePrefix(loc.inHome) + ELLIPSIS)
  {
    var comps := loc.components;
    var skip := ToSkip(|comps|, maxDepth);
    var head := HomePrefix(loc.inHome) + ELLIPSIS;
    assert CwdText(shell, maxDepth, loc, asBold) == head + Trail(shell, comps[skip..], asBold);
  }

  /** Only the last component is in bold: the text ends with "/" and its emphasised name. */
  lemma LastComponentBold(shell: Format.Shell, maxDepth: u8, loc: Located, asBold: Emphasis)
    requires |loc.components| > 0
    ensures var comps := loc.components;
      EndsWith(CwdText(shell, maxDepth, loc, asBold), "/" + asBold(shell, comps[|comps| - 1]))
  {
    var comps := loc.components;
    var skip := ToSkip(|comps|, maxDepth);
    var shown := comps[skip..];
    var last := "/" + asBold(shell, shown[|shown| - 1]);
    var head := HomePrefix(loc.inHome) + Elision(skip) + Joined(shown[..|shown| - 1]);
    assert CwdText(shell, maxDepth, loc, asBold) == head + last;
  }

  /** `parts` joined with "/" between consecutive components, as a path is usually written. */
  function Intercalate(parts: seq<string>): string
  {
    if |parts| == 0 then "" else if |parts| == 1 then parts[0] else parts[0] + "/" + Intercalate(parts[1..])
  }

  lemma {:induction false} JoinedIsIntercalate(parts: seq<string>)
    requires |parts| > 0
    ensures Joined(parts) == "/" + Intercalate(parts)
    decreases |parts|
  {
    if |parts| == 1 {
      assert parts[..0] == [];
    } else {
      var tail := parts[1..];
      assert parts == [parts[0]] + tail;
      JoinedIsIntercalate(tail);
      JoinedFront(parts[0], tail);
    }
  }

  lemma {:induction false} JoinedFront(first: string, rest: seq<string>)
    ensures Joined([first] + rest) == "/" + first + Joined(rest)
    decreases |rest|
  {
    if |rest| == 0 {
      assert [first] + rest == [first];
      assert [first][..0] == [];
    } else {
      var n := |rest| - 1;
      assert ([first] + rest)[..n + 1] == [first] + rest[..n];
      JoinedFront(first, rest[..n]);
    }
  }

  /** With an emphasis that leaves text unchanged and nothing left out, the text is the located
      path written the usual way: "~" or nothing, then "/" and the components separated by "/". */
  lemma PlainCwdText(shell: Format.Shell, maxDepth: u8, loc: Located)
    requires |loc.components| > 0
    requires maxDepth == 0 || |loc.components| <= maxDepth as int
    ensures CwdText(shell, maxDepth, loc, (sh, s) => s) == HomePrefix(loc.inHome) + "/" + Intercalate(loc.components)
  {
    var comps := loc.components;
    var plain: Emphasis := (sh, s) => s;
    var n := |comps| - 1;
    assert ToSkip(|comps|, maxDepth) == 0;
    assert comps[0..] == comps;
    assert plain(shell, comps[n]) == comps[n];
    assert Joined(comps) == Joined(comps[..n]) + "/" + comps[n];
    JoinedIsIntercalate(comps);
    assert Trail(shell, comps, plain) == Joined(comps);
    assert CwdText(shell, maxDepth, loc, plain) == HomePrefix(loc.inHome) + Joined(comps);
  }

  /** In the home directory itself the text is the emphasised "~"; below it, the components after
      the home directory follow "~". */
  lemma HomeDirectory(shell: Format.Shell, maxDepth: u8, home: seq<string>, below: seq<string>, asBold: Emphasis)
    ensures Locate(Some(home + below), Some(home)) == Located(true, below)
    ensures CwdText(shell, maxDepth, Locate(Some(home), Some(home)), asBold) == asBold(shell, "~")
  {
    assert (home + below)[..|home|] == home;
    assert home + [] == home;
    assert Locate(Some(home + []), Some(home)) == Located(true, []);
  }

  /** Without a home directory the root component stays in the path, so the root shows as an extra
      "/": the directory /usr is written "//" followed by "/" and the emphasised "usr". */
  lemma NoHomeKeepsRoot(shell: Format.Shell, asBold: Emphasis)
    ensures CwdText(shell, 0, Locate(Some(["/", "usr"]), None), asBold) == "///" + asBold(shell, "usr")
  {
    assert ["/", "usr"][0..] == ["/", "usr"];
    assert ["/", "usr"][..1] == ["/"];
    assert ["/"][..0] == [];
  }
}
