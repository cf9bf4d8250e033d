/** Tokenization with the semantics of `strtok` (section 7.24.5.8 of ISO C11),
    as a pure function over an immutable string: a token is a maximal run of
    characters none of which is a separator, so runs of separators (and
    separators at either end) produce no empty tokens. */
module Tokens {

  predicate NoneIn(s: string, seps: set<char>) {
    forall i | 0 <= i < |s| :: s[i] !in seps
  }

  predicate AllIn(s: string, seps: set<char>) {
    forall i | 0 <= i < |s| :: s[i] in seps
  }

  /** Length of the leading run of non-separator characters. */
  function RunLength(s: string, seps: set<char>): (n: nat)
    ensures n <= |s|
    ensures NoneIn(s[..n], seps)
    ensures n < |s| ==> s[n] in seps
  {
    if |s| > 0 && s[0] !in seps then 1 + RunLength(s[1..], seps) else 0
  }

  /** The tokens of `s`, in input order. */
  function Split(s: string, seps: set<char>): (tokens: seq<string>)
    ensures forall i | 0 <= i < |tokens| :: |tokens[i]| > 0 && NoneIn(tokens[i], seps)
    decreases |s|
  {
    if |s| == 0 then []
    else if s[0] in seps then Split(s[1..], seps)
    else
      var n := RunLength(s, seps);
      [s[..n]] + Split(s[n..], seps)
  }

  /** The tokens glued together with `sep` between neighbours. */
  function JoinWith(tokens: seq<string>, sep: string): string {
    if |tokens| == 0 then []
    else if |tokens| == 1 then tokens[0]
    else tokens[0] + sep + JoinWith(tokens[1..], sep)
  }

  /** The tokens with `gaps[i]` written between token `i` and token `i + 1`. */
  function Weave(tokens: seq<string>, gaps: seq<string>): string
    requires |tokens| == 0 || |gaps| == |tokens| - 1
  {
    if |tokens| == 0 then []
    else if |tokens| == 1 then tokens[0]
    else tokens[0] + gaps[0] + Weave(tokens[1..], gaps[1..])
  }

  /** One more token and gap in front of a weave. */
  lemma WeaveCons(t: string, ts: seq<string>, g: string, gs: seq<string>)
    requires |ts| > 0 && |gs| == |ts| - 1
    ensures Weave([t] + ts, [g] + gs) == t + g + Weave(ts, gs)
  {
    assert ([t] + ts)[1..] == ts;
    assert ([g] + gs)[1..] == gs;
  }

  function Concat(tokens: seq<string>): string {
    if |tokens| == 0 then [] else tokens[0] + Concat(tokens[1..])
  }

  /** The separator-free characters of `s`, in order. */
  function Strip(s: string, seps: set<char>): string {
    if |s| == 0 then []
    else if s[0] in seps then Strip(s[1..], seps)
    else [s[0]] + Strip(s[1..], seps)
  }

  /** `strtok` over each line, for every line of the text. */
  function SplitEachLine(lines: seq<string>, seps: set<char>): seq<string> {
    if |lines| == 0 then [] else Split(lines[0], seps) + SplitEachLine(lines[1..], seps)
  }

  /** Splitting distributes over a concatenation whose seam falls on a separator
      (or at the end). */
  lemma {:induction false} SplitAppend(a: string, b: string, seps: set<char>)
    requires b == [] || b[0] in seps
    ensures Split(a + b, seps) == Split(a, seps) + Split(b, seps)
    decreases |a|
  {
    if |a| == 0 {
      assert a + b == b;
    } else if a[0] in seps {
      assert (a + b)[1..] == a[1..] + b;
      SplitAppend(a[1..], b, seps);
    } else {
      var n := RunLength(a, seps);
      SplitFirstTokenAppend(a, b, seps);
      SplitAppend(a[n..], b, seps);
      assert Split(a, seps) == [a[..n]] + Split(a[n..], seps);
    }
  }

  /** The first token of `a + b` lies inside `a` when the seam falls on a
      separator. */
  lemma SplitFirstTokenAppend(a: string, b: string, seps: set<char>)
    requires |a| > 0 && a[0] !in seps
    requires b == [] || b[0] in seps
    ensures var n := RunLength(a, seps);
      Split(a + b, seps) == [a[..n]] + Split(a[n..] + b, seps)
  {
    var n := RunLength(a, seps);
    RunLengthAppend(a, b, seps);
    assert (a + b)[..n] == a[..n];
    assert (a + b)[n..] == a[n..] + b;
  }

  lemma {:induction false} RunLengthAppend(a: string, b: string, seps: set<char>)
    requires b == [] || b[0] in seps
    ensures RunLength(a + b, seps) == RunLength(a, seps)
    decreases |a|
  {
    if |a| > 0 && a[0] !in seps {
      assert (a + b)[1..] == a[1..] + b;
      RunLengthAppend(a[1..], b, seps);
    }
  }

  /** A non-empty separator-free string is one token. */
  lemma SplitToken(t: string, seps: set<char>)
    requires |t| > 0 && NoneIn(t, seps)
    ensures Split(t, seps) == [t]
  {
    RunLengthOfToken(t, seps);
    assert t[..|t|] == t;
    assert t[|t|..] == [];
  }

  lemma {:induction false} RunLengthOfToken(t: string, seps: set<char>)
    requires NoneIn(t, seps)
    ensures RunLength(t, seps) == |t|
  {
    if |t| > 0 {
      RunLengthOfToken(t[1..], seps);
    }
  }

  /** Separators only: no tokens at all. */
  lemma {:induction false} SplitSeparators(s: string, rest: string, seps: set<char>)
    requires AllIn(s, seps)
    ensures Split(s + rest, seps) == Split(rest, seps)
    decreases |s|
  {
    if |s| == 0 {
      assert s + rest == rest;
    } else {
      assert (s + rest)[1..] == s[1..] + rest;
      SplitSeparators(s[1..], rest, seps);
    }
  }

  /** `Split` yields no token exactly when every character is a separator;
      in particular the empty string has no tokens. */
  lemma {:induction false} SplitEmptyIff(s: string, seps: set<char>)
    ensures Split(s, seps) == [] <==> AllIn(s, seps)
    decreases |s|
  {
    if |s| > 0 {
      SplitEmptyIff(s[1..], seps);
    }
  }

  /** Joining tokens with a separator string and splitting again gives the
      tokens back. */
  lemma {:induction false} SplitJoin(tokens: seq<string>, sep: string, seps: set<char>)
    requires forall i | 0 <= i < |tokens| :: |tokens[i]| > 0 && NoneIn(tokens[i], seps)
    requires |sep| > 0 && AllIn(sep, seps)
    ensures Split(JoinWith(tokens, sep), seps) == tokens
  {
    if |tokens| == 1 {
      SplitToken(tokens[0], seps);
    } else if |tokens| > 1 {
      var rest := JoinWith(tokens[1..], sep);
      assert JoinWith(tokens, sep) == tokens[0] + (sep + rest);
      SplitAppend(tokens[0], sep + rest, seps);
      SplitToken(tokens[0], seps);
      SplitSeparators(sep, rest, seps);
      SplitJoin(tokens[1..], sep, seps);
    }
  }

  /** Writing tokens with any non-empty runs of separators between them and
      splitting again gives the tokens back. */
  lemma {:induction false} SplitWeave(tokens: seq<string>, gaps: seq<string>, seps: set<char>)
    requires |tokens| == 0 || |gaps| == |tokens| - 1
    requires forall i | 0 <= i < |tokens| :: |tokens[i]| > 0 && NoneIn(tokens[i], seps)
    requires forall i | 0 <= i < |gaps| :: |gaps[i]| > 0 && AllIn(gaps[i], seps)
    ensures Split(Weave(tokens, gaps), seps) == tokens
  {
    if |tokens| == 1 {
      SplitToken(tokens[0], seps);
    } else if |tokens| > 1 {
      var rest := Weave(tokens[1..], gaps[1..]);
      assert Weave(tokens, gaps) == tokens[0] + (gaps[0] + rest);
      SplitAppend(tokens[0], gaps[0] + rest, seps);
      SplitToken(tokens[0], seps);
      SplitSeparators(gaps[0], rest, seps);
      SplitWeave(tokens[1..], gaps[1..], seps);
    }
  }

  lemma {:induction false} StripAppend(a: string, b: string, seps: set<char>)
    ensures Strip(a + b, seps) == Strip(a, seps) + Strip(b, seps)
    decreases |a|
  {
    if |a| == 0 {
      assert a + b == b;
    } else {
      assert (a + b)[1..] == a[1..] + b;
      StripAppend(a[1..], b, seps);
    }
  }

  lemma {:induction false} StripToken(t: string, seps: set<char>)
    requires NoneIn(t, seps)
    ensures Strip(t, seps) == t
  {
    if |t| > 0 {
      StripToken(t[1..], seps);
    }
  }

  /** Nothing but separators is lost and nothing is reordered: the tokens,
      concatenated, are the input with its separator characters removed. */
  lemma {:induction false} SplitKeepsContent(s: string, seps: set<char>)
    ensures Concat(Split(s, seps)) == Strip(s, seps)
    decreases |s|
  {
    if |s| > 0 {
      if s[0] in seps {
        SplitKeepsContent(s[1..], seps);
      } else {
        var n := RunLength(s, seps);
        var tokens := Split(s, seps);
        assert tokens[1..] == Split(s[n..], seps);
        SplitKeepsContent(s[n..], seps);
        assert s == s[..n] + s[n..];
        StripAppend(s[..n], s[n..], seps);
        StripToken(s[..n], seps);
      }
    }
  }

  /** Characters that do not occur in `s` make no difference as separators. */
  lemma {:induction false} RunLengthIgnoresAbsent(s: string, seps: set<char>, extra: set<char>)
    requires NoneIn(s, extra)
    ensures RunLength(s, seps + extra) == RunLength(s, seps)
    decreases |s|
  {
    if |s| > 0 {
      assert NoneIn(s[1..], extra) by {
        forall i | 0 <= i < |s[1..]|
          ensures s[1..][i] !in extra
        {
          assert s[1..][i] == s[i + 1];
        }
      }
      RunLengthIgnoresAbsent(s[1..], seps, extra);
    }
  }

  lemma {:induction false} SplitIgnoresAbsent(s: string, seps: set<char>, extra: set<char>)
    requires NoneIn(s, extra)
    ensures Split(s, seps + extra) == Split(s, seps)
    decreases |s|
  {
    if |s| > 0 {
      if s[0] in seps {
        NoneInSuffix(s, 1, extra);
        SplitIgnoresAbsent(s[1..], seps, extra);
      } else {
        var n := RunLength(s, seps);
        RunLengthIgnoresAbsent(s, seps, extra);
        NoneInSuffix(s, n, extra);
        SplitIgnoresAbsent(s[n..], seps, extra);
      }
    }
  }

  lemma NoneInSuffix(s: string, k: nat, extra: set<char>)
    requires k <= |s| && NoneIn(s, extra)
    ensures NoneIn(s[k..], extra)
  {
    forall i | 0 <= i < |s[k..]|
      ensures s[k..][i] !in extra
    {
      assert s[k..][i] == s[k + i];
    }
  }

  /** Lines that hold none of the `extra` characters split the same with and
      without them. */
  lemma {:induction false} SplitEachLineIgnoresAbsent(lines: seq<string>, seps: set<char>, extra: set<char>)
    requires forall i | 0 <= i < |lines| :: NoneIn(lines[i], extra)
    ensures SplitEachLine(lines, seps + extra) == SplitEachLine(lines, seps)
  {
    if |lines| > 0 {
      SplitIgnoresAbsent(lines[0], seps, extra);
      SplitEachLineIgnoresAbsent(lines[1..], seps, extra);
    }
  }

  /** Splitting the text into lines on '\n' first and then each line on the
      separators gives the same tokens as splitting the whole text at once,
      when '\n' is itself a separator: every line is processed. */
  lemma {:induction false} SplitByLines(s: string, seps: set<char>)
    requires '\n' in seps
    ensures SplitEachLine(Split(s, {'\n'}), seps) == Split(s, seps)
    decreases |s|
  {
    if |s| > 0 {
      if s[0] == '\n' {
        SplitByLines(s[1..], seps);
      } else {
        var n := RunLength(s, {'\n'});
        var lines := Split(s, {'\n'});
        assert lines[0] == s[..n];
        assert lines[1..] == Split(s[n..], {'\n'});
        SplitByLines(s[n..], seps);
        assert s == s[..n] + s[n..];
        SplitAppend(s[..n], s[n..], seps);
      }
    }
  }
}
