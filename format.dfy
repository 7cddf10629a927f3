/** src/format.rs: the escape codes each shell dialect needs for colours and resets, the root
    sigil, and the escaping of prompt metacharacters in segment text. */
module Format {
  import opened Wrappers
  import opened Numerals
  import opened Text

  /** The output dialect: raw ANSI, or a bash or zsh prompt string. */
  datatype Shell = Bare | Bash | Zsh

  const ESC: char := '\U{1B}'

  /** A select-graphic-rendition sequence with the given parameters. Raw ANSI emits it as is;
      bash writes the escape byte as `\e` and wraps the sequence in `\[` `\]`, zsh wraps it in
      `%{` `%}`, so that neither shell counts it towards the prompt's width. */
  function Sgr(shell: Shell, params: string): (r: string)
  {
    match shell
    case Bare => [ESC] + "[" + params + "m"
    case Bash => "\\[\\e[" + params + "m\\]"
    case Zsh => "%{" + [ESC] + "[" + params + "m%}"
  }

  /** How many characters a dialect's wrapping puts before and after the parameters. */
  function SgrFront(shell: Shell): nat
  {
    match shell
    case Bare => 2
    case Bash => 5
    case Zsh => 4
  }

  function SgrBack(shell: Shell): nat
  {
    match shell
    case Bare => 1
    case Bash => 3
    case Zsh => 3
  }

  /** The parameters of a code, read back from between the dialect's wrapping. */
  function Params(shell: Shell, code: string): string
    requires |code| >= SgrFront(shell) + SgrBack(shell)
  {
    code[SgrFront(shell)..|code| - SgrBack(shell)]
  }

  lemma SgrParams(shell: Shell, params: string)
    ensures |Sgr(shell, params)| == SgrFront(shell) + |params| + SgrBack(shell)
    ensures Params(shell, Sgr(shell, params)) == params
  {
  }

  /** `Fg(shell, n)`: select foreground colour `n` of the 256-colour palette. The parameters are
      `38;5;` and the index, which reads back as `n`. */
  function Fg(shell: Shell, n: u8): (r: string)
    ensures |r| >= SgrFront(shell) + SgrBack(shell) + 6
    ensures Params(shell, r)[..5] == "38;5;" && ParseU8(Params(shell, r)[5..]) == Some(n)
  {
    var params := "38;5;" + Decimal(n);
    SgrParams(shell, params);
    DecimalWellFormed(n);
    ParseU8Decimal(n);
    assert params[5..] == Decimal(n);
    Sgr(shell, params)
  }

  /** `Bg(shell, n)`: the same with code 48, the background. */
  function Bg(shell: Shell, n: u8): (r: string)
    ensures |r| >= SgrFront(shell) + SgrBack(shell) + 6
    ensures Params(shell, r)[..5] == "48;5;" && ParseU8(Params(shell, r)[5..]) == Some(n)
  {
    var params := "48;5;" + Decimal(n);
    SgrParams(shell, params);
    DecimalWellFormed(n);
    ParseU8Decimal(n);
    assert params[5..] == Decimal(n);
    Sgr(shell, params)
  }

  /** `Reset(shell, true)` restores the default foreground (code 39), `Reset(shell, false)` the
      default background (code 49). */
  function Reset(shell: Shell, foreground: bool): (r: string)
    ensures |r| == SgrFront(shell) + SgrBack(shell) + 2
    ensures Params(shell, r) == if foreground then "39" else "49"
  {
    var params := (if foreground then "3" else "4") + "9";
    SgrParams(shell, params);
    Sgr(shell, params)
  }

  /** `root`: the dialect's own prompt sigil: a literal `$` for raw ANSI, bash's `\$` (which bash
      shows as `#` for the superuser and `$` otherwise) and zsh's `%#` (`#` or `%`). */
  function Root(shell: Shell): (r: string)
    ensures |r| > 0 && r[|r| - 1] in "$#"
  {
    match shell
    case Bare => "$"
    case Bash => "\\$"
    case Zsh => "%#"
  }

  /** What one input character becomes in the given dialect's prompt string. */
  function EscapeChar(shell: Shell, c: char): (r: string)
    ensures |r| == 1 || |r| == 2
  {
    match shell
    case Bare => [c]
    case Bash => if c == '\\' then "\\\\" else if c == '$' then "\\$" else [c]
    case Zsh => if c == '%' then "%%" else [c]
  }

  /** Rewriting every character of `s`, in order, each exactly once. */
  function EscapeChars(shell: Shell, s: string): string
  {
    if |s| == 0 then "" else EscapeChar(shell, s[0]) + EscapeChars(shell, s[1..])
  }

  /** `escape`: the identity for raw ANSI, the per-character rewrite otherwise. */
  function Escape(shell: Shell, s: string): string
  {
    if shell == Bare then s else EscapeChars(shell, s)
  }

  /** The characters the dialect rewrites. */
  predicate IsSpecial(shell: Shell, c: char)
  {
    match shell
    case Bare => false
    case Bash => c == '\\' || c == '$'
    case Zsh => c == '%'
  }

  function SpecialCount(shell: Shell, s: string): nat
  {
    match shell
    case Bare => 0
    case Bash => Occurrences(s, '\\') + Occurrences(s, '$')
    case Zsh => Occurrences(s, '%')
  }

  /** The inverse of `Escape`: reads a dialect's prompt string back into the text it displays, or
      None when it holds an escape no `Escape` produces. */
  function Unescape(shell: Shell, t: string): (r: Option<string>)
  {
    if shell == Bare || |t| == 0 then Some(t)
    else if IsSpecial(shell, t[0]) then
      if |t| >= 2 && IsSpecial(shell, t[1]) && (shell == Zsh || t[0] == '\\') then
        match Unescape(shell, t[2..])
        case Some(rest) => Some([t[1]] + rest)
        case None => None
      else None
    else
      match Unescape(shell, t[1..])
      case Some(rest) => Some([t[0]] + rest)
      case None => None
  }

  lemma {:induction false} EscapeCharsAppend(shell: Shell, a: string, b: string)
    ensures EscapeChars(shell, a + b) == EscapeChars(shell, a) + EscapeChars(shell, b)
  {
    if |a| == 0 {
      assert a + b == b;
    } else {
      assert (a + b)[1..] == a[1..] + b;
      EscapeCharsAppend(shell, a[1..], b);
    }
  }

  /** Raw ANSI output needs no escaping. */
  lemma EscapeBareIdentity(s: string)
    ensures Escape(Bare, s) == s
  {
  }

  /** Escaping can be undone: nothing is lost and no two texts escape alike. */
  lemma {:induction false} UnescapeEscape(shell: Shell, s: string)
    ensures Unescape(shell, Escape(shell, s)) == Some(s)
  {
    if shell != Bare && |s| > 0 {
      UnescapeEscape(shell, s[1..]);
      var e := EscapeChars(shell, s);
      assert e == EscapeChar(shell, s[0]) + EscapeChars(shell, s[1..]);
      if IsSpecial(shell, s[0]) {
        assert e[2..] == EscapeChars(shell, s[1..]);
      } else {
        assert e[1..] == EscapeChars(shell, s[1..]);
      }
      assert [s[0]] + s[1..] == s;
    }
  }

  /** Each special character gains exactly one escaping character; nothing else changes length. */
  lemma {:induction false} EscapeLength(shell: Shell, s: string)
    ensures |Escape(shell, s)| == |s| + SpecialCount(shell, s)
  {
    if shell != Bare && |s| > 0 {
      EscapeLength(shell, s[1..]);
    }
  }

  /** Escaped text is never shorter than the original. */
  lemma EscapeNeverShrinks(shell: Shell, s: string)
    ensures |Escape(shell, s)| >= |s|
  {
    EscapeLength(shell, s);
  }

  /** Text with no special character of the dialect comes through unchanged. */
  lemma {:induction false} EscapeUnchanged(shell: Shell, s: string)
    requires forall k :: 0 <= k < |s| ==> !IsSpecial(shell, s[k])
    ensures Escape(shell, s) == s
  {
    if shell != Bare && |s| > 0 {
      EscapeUnchanged(shell, s[1..]);
      assert [s[0]] + s[1..] == s;
    }
  }

  /** Escaping twice is not escaping once, which is why a segment records that its text has been
      escaped. */
  lemma EscapeTwiceDiffers()
    ensures Escape(Bash, Escape(Bash, "$")) != Escape(Bash, "$")
    ensures Escape(Zsh, Escape(Zsh, "%")) != Escape(Zsh, "%")
  {
    EscapeLength(Bash, "$");
    EscapeLength(Bash, Escape(Bash, "$"));
    assert Escape(Bash, "$") == "\\$";
    EscapeLength(Zsh, "%");
    EscapeLength(Zsh, Escape(Zsh, "%"));
    assert Escape(Zsh, "%") == "%%";
  }

  /** The loop of `escape`: one pass over the characters, pushing onto a growing buffer. */
  method EscapeString(shell: Shell, input: string) returns (output: string)
    ensures output == Escape(shell, input)
  {
    if shell == Bare {
      return input;
    }
    output := "";
    for i := 0 to |input|
      invariant output == EscapeChars(shell, input[..i])
    {
      var c := input[i];
      match shell {
        case Bash =>
          if c == '\\' {
            output := output + "\\\\";
          } else if c == '$' {
            output := output + "\\$";
          } else {
            output := output + [c];
          }
        case Zsh =>
          if c == '%' {
            output := output + "%%";
          } else {
            output := output + [c];
          }
      }
      EscapeCharsAppend(shell, input[..i], [c]);
      assert input[..i + 1] == input[..i] + [c];
    }
    assert input[..|input|] == input;
  }

  /** The bash and zsh forms are the raw sequence wrapped in the shell's zero-width markers. */
  lemma DialectWrapping(params: string)
    ensures Sgr(Zsh, params) == "%{" + Sgr(Bare, params) + "%}"
    ensures Sgr(Bash, params) == "\\[\\e" + Sgr(Bare, params)[1..] + "\\]"
    ensures Sgr(Bare, params)[0] == ESC
  {
    var bare := Sgr(Bare, params);
    assert bare[1..] == "[" + params + "m";
  }

  /** Every code the formatter emits is plain ASCII. */
  predicate IsAscii(s: string)
  {
    forall k :: 0 <= k < |s| ==> s[k] < '\U{80}'
  }

  lemma {:induction false} DecimalAscii(n: nat)
    ensures IsAscii(Decimal(n))
  {
    DecimalWellFormed(n);
  }

  lemma AsciiConcat(a: string, b: string)
    requires IsAscii(a) && IsAscii(b)
    ensures IsAscii(a + b)
  {
    forall k | 0 <= k < |a + b|
      ensures (a + b)[k] < '\U{80}'
    {
      if k < |a| { assert (a + b)[k] == a[k]; } else { assert (a + b)[k] == b[k - |a|]; }
    }
  }

  lemma SgrAscii(shell: Shell, params: string)
    requires IsAscii(params)
    ensures IsAscii(Sgr(shell, params))
  {
    var (pre, post) := match shell
      case Bare => ([ESC] + "[", "m")
      case Bash => ("\\[\\e[", "m\\]")
      case Zsh => ("%{" + [ESC] + "[", "m%}");
    assert IsAscii(pre) && IsAscii(post);
    AsciiConcat(pre, params);
    AsciiConcat(pre + params, post);
    assert Sgr(shell, params) == pre + params + post;
  }

  lemma CodesAscii(shell: Shell, n: u8, foreground: bool)
    ensures IsAscii(Fg(shell, n)) && IsAscii(Bg(shell, n)) && IsAscii(Reset(shell, foreground))
  {
    DecimalAscii(n);
    AsciiConcat("38;5;", Decimal(n));
    AsciiConcat("48;5;", Decimal(n));
    SgrAscii(shell, "38;5;" + Decimal(n));
    SgrAscii(shell, "48;5;" + Decimal(n));
    SgrAscii(shell, (if foreground then "3" else "4") + "9");
  }

  /** Distinct palette indices give distinct codes, a foreground code is never a background
      code, and no colour code is a reset. */
  lemma ColorCodesDistinct(shell: Shell, a: u8, b: u8, foreground: bool)
    ensures Fg(shell, a) == Fg(shell, b) ==> a == b
    ensures Bg(shell, a) == Bg(shell, b) ==> a == b
    ensures Fg(shell, a) != Bg(shell, b)
    ensures Reset(shell, foreground) != Fg(shell, a) && Reset(shell, foreground) != Bg(shell, a)
  {
    var pf := Params(shell, Fg(shell, a));
    var pb := Params(shell, Bg(shell, b));
    assert pf[0] == '3' && pb[0] == '4';
  }
}
