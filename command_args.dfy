/**
 * The argument splitting at the top of execute_command in both shells:
 * strtok with the delimiter set " " cuts the command line into tokens,
 * and at most 16 are kept. The first shell also skips leading spaces and
 * returns on a line that is then empty; the second relies on strtok alone.
 * Only the space is a delimiter: a tab is part of a token.
 */
module CommandArgs {
  import opened CText

  const MAX_ARGS: int := 16

  /** What strtok can return: a non-empty run without spaces. */
  predicate IsToken(w: string) {
    w != [] && ' ' !in w
  }

  /** The longest prefix with no space. */
  function TokenPrefix(s: string): (t: string)
    ensures t <= s && ' ' !in t
    ensures |t| < |s| ==> s[|t|] == ' '
  {
    if s == [] || s[0] == ' ' then [] else [s[0]] + TokenPrefix(s[1..])
  }

  /** The suffix after the leading spaces. */
  function SkipBlanks(s: string): (r: string)
    ensures |r| <= |s| && (r == [] || r[0] != ' ')
  {
    if s != [] && s[0] == ' ' then SkipBlanks(s[1..]) else s
  }

  /**
   * One strtok(.., " ") call: skip spaces, then the token up to the next
   * space; None when only spaces are left. The rest is what the next call
   * scans.
   */
  function NextToken(s: string): (r: Option<(string, string)>)
    ensures r.None? <==> SkipBlanks(s) == []
    ensures r.Some? ==> IsToken(r.value.0) && r.value.0 + r.value.1 == SkipBlanks(s)
    ensures r.Some? ==> r.value.1 == [] || r.value.1[0] == ' '
  {
    var t := SkipBlanks(s);
    if t == [] then None
    else
      var w := TokenPrefix(t);
      assert w + t[|w|..] == t;
      Some((w, t[|w|..]))
  }

  /** Every token strtok would return, in order. */
  function Tokens(s: string): (ts: seq<string>)
    ensures forall i :: 0 <= i < |ts| ==> IsToken(ts[i])
    decreases |s|
  {
    match NextToken(s)
    case None => []
    case Some((w, rest)) =>
      assert |rest| < |s|;
      [w] + Tokens(rest)
  }

  /**
   * The splitting loop: call strtok while it returns a token and fewer
   * than 16 are stored.
   */
  method SplitArgs(cmd: string) returns (args: seq<string>)
    ensures args == Take(Tokens(cmd), MAX_ARGS)
    ensures |args| <= MAX_ARGS && forall i :: 0 <= i < |args| ==> IsToken(args[i])
  {
    args := [];
    var rest := cmd;
    var token := NextToken(rest);
    while token.Some? && |args| < MAX_ARGS
      invariant |args| <= MAX_ARGS
      invariant token == NextToken(rest)
      invariant args + Tokens(rest) == Tokens(cmd)
      decreases |rest|
    {
      var (w, after) := token.value;
      assert Tokens(rest) == [w] + Tokens(after);
      args := args + [w];
      rest := after;
      token := NextToken(rest);
    }
    assert Tokens(cmd)[..|args|] == args;
    if token.None? {
      assert Tokens(rest) == [];
      assert args == Tokens(cmd);
    }
  }

  /**
   * execute_command of the first shell up to the dispatch: skip leading
   * spaces, give up on an empty line, split. None means nothing runs.
   */
  method FirstShellArgs(cmd: string) returns (args: Option<seq<string>>)
    ensures args.None? <==> Tokens(cmd) == []
    ensures args.Some? ==> args.value == Take(Tokens(cmd), MAX_ARGS)
  {
    var i := 0;
    while i < |cmd| && cmd[i] == ' '
      invariant 0 <= i <= |cmd|
      invariant forall j :: 0 <= j < i ==> cmd[j] == ' '
    {
      assert cmd[i..][1..] == cmd[i + 1..];
      i := i + 1;
    }
    TokensAfterBlanks(cmd, i);
    if i == |cmd| {
      assert Tokens(cmd[i..]) == [];
      return None;
    }
    var split := SplitArgs(cmd[i..]);
    if |split| == 0 {
      return None;
    }
    return Some(split);
  }

  /** execute_command of the second shell up to the dispatch. */
  method SecondShellArgs(cmd: string) returns (args: Option<seq<string>>)
    ensures args.None? <==> Tokens(cmd) == []
    ensures args.Some? ==> args.value == Take(Tokens(cmd), MAX_ARGS)
  {
    var split := SplitArgs(cmd);
    if |split| == 0 {
      return None;
    }
    return Some(split);
  }

  /** Dropping leading spaces does not change the tokens. */
  lemma {:induction false} TokensAfterBlanks(cmd: string, i: nat)
    requires i <= |cmd| && forall j :: 0 <= j < i ==> cmd[j] == ' '
    ensures Tokens(cmd[i..]) == Tokens(cmd)
  {
    SkipBlanksDrop(cmd, i);
  }

  lemma {:induction false} SkipBlanksDrop(s: string, i: nat)
    requires i <= |s| && forall j :: 0 <= j < i ==> s[j] == ' '
    ensures SkipBlanks(s[i..]) == SkipBlanks(s)
  {
    if i > 0 {
      assert s[1..][i - 1..] == s[i..];
      SkipBlanksDrop(s[1..], i - 1);
    }
  }

  /**
   * The two shells split every line alike: the leading-space trim of the
   * first is already done by strtok.
   */
  lemma ShellsAgree(cmd: string)
    ensures (Tokens(cmd) == []) == (Tokens(SkipBlanks(cmd)) == [])
    ensures Tokens(SkipBlanks(cmd)) == Tokens(cmd)
  {
    var i := |cmd| - |SkipBlanks(cmd)|;
    BlanksAreSpaces(cmd);
    TokensAfterBlanks(cmd, i);
  }

  lemma {:induction false} BlanksAreSpaces(s: string)
    ensures forall j :: 0 <= j < |s| - |SkipBlanks(s)| ==> s[j] == ' '
  {
    if s != [] && s[0] == ' ' {
      BlanksAreSpaces(s[1..]);
    }
  }

  /**
   * Round trip: words without spaces written with single spaces between
   * them are split back into the same words.
   */
  lemma {:induction false} TokensOfJoined(words: seq<string>)
    requires forall i :: 0 <= i < |words| ==> IsToken(words[i])
    ensures Tokens(JoinSpaces(words)) == words
  {
    if words != [] {
      var w := words[0];
      var rest := if |words| == 1 then [] else " " + JoinSpaces(words[1..]);
      assert JoinSpaces(words) == w + rest;
      NextTokenOfToken(w, rest);
      if |words| == 1 {
        assert Tokens(rest) == [];
      } else {
        TokensOfJoined(words[1..]);
        SpaceBeforeTokens(JoinSpaces(words[1..]));
      }
    }
  }

  /** A token followed by a space or the end is the next token, and the rest is left. */
  lemma NextTokenOfToken(w: string, rest: string)
    requires IsToken(w) && (rest == [] || rest[0] == ' ')
    ensures NextToken(w + rest) == Some((w, rest))
  {
    var s := w + rest;
    assert s[0] == w[0] && w[0] in w;
    assert SkipBlanks(s) == s;
    TokenPrefixOf(w, rest);
    assert s[|w|..] == rest;
  }

  /** One space in front does not change the tokens. */
  lemma SpaceBeforeTokens(t: string)
    ensures Tokens(" " + t) == Tokens(t)
  {
    assert SkipBlanks(" " + t) == SkipBlanks(t) by {
      assert (" " + t)[1..] == t;
    }
    assert NextToken(" " + t) == NextToken(t);
  }

  lemma {:induction false} TokenPrefixOf(w: string, rest: string)
    requires ' ' !in w && (rest == [] || rest[0] == ' ')
    ensures TokenPrefix(w + rest) == w
  {
    if w == [] {
      assert w + rest == rest;
    } else {
      assert (w + rest)[0] == w[0];
      assert (w + rest)[1..] == w[1..] + rest;
      TokenPrefixOf(w[1..], rest);
    }
  }

  /** A line of more than 16 words keeps the first 16; the rest are dropped. */
  lemma ExtraWordsDropped(words: seq<string>)
    requires |words| > MAX_ARGS
    requires forall i :: 0 <= i < |words| ==> IsToken(words[i])
    ensures Take(Tokens(JoinSpaces(words)), MAX_ARGS) == words[..MAX_ARGS]
  {
    TokensOfJoined(words);
  }
}
