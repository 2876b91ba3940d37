/** Removing white space and comments from JSON text in place, and what that keeps. */
module Minify {
  predicate IsBlank(c: char) { c == ' ' || c == '\t' || c == '\r' || c == '\n' }

  predicate CopiedAsIs(c: char) { !IsBlank(c) && c != '/' && c != '\"' }

  function AfterLine(s: string): (r: string)
    ensures |r| <= |s|
  {
    if s == "" then "" else if s[0] == '\n' then s[1..] else AfterLine(s[1..])
  }

  function AfterBlock(s: string): (r: string)
    ensures |r| <= |s|
  {
    if s == "" then "" else if s[0] == '*' && |s| > 1 && s[1] == '/' then s[2..] else AfterBlock(s[1..])
  }

  function Minified(s: string): string
    decreases |s|
  {
    if s == "" then ""
    else if IsBlank(s[0]) then Minified(s[1..])
    else if s[0] == '/' then
      if |s| > 1 && s[1] == '/' then Minified(AfterLine(s[2..]))
      else if |s| > 1 && s[1] == '*' then Minified(AfterBlock(s[2..]))
      else Minified(s[1..])
    else if s[0] == '\"' then "\"" + InString(s[1..])
    else [s[0]] + Minified(s[1..])
  }

  /** From inside a string: an escaped quote is recognised by the backslash just before it. */
  function InString(s: string): string
    decreases |s|
  {
    if s == "" then ""
    else if s[0] == '\"' then "\"" + Minified(s[1..])
    else if s[0] == '\\' && |s| > 1 && s[1] == '\"' then s[..2] + InString(s[2..])
    else [s[0]] + InString(s[1..])
  }

  // ---------- in place ----------

  /** From `j` on the buffer holds text that ends at `n`. */
  ghost predicate Holds(a: array<char>, j: nat, n: nat)
    reads a
  {
    j <= n < a.Length && a[n] == '\0' && forall i :: j <= i < n ==> a[i] != '\0'
  }

  method SkipOneline(a: array<char>, json: nat, n: nat) returns (j: nat)
    requires Holds(a, json, n) && json + 2 <= n
    ensures json + 2 <= j <= n && a[j..n] == AfterLine(a[json + 2..n])
  {
    j := json + 2;
    while a[j] != '\0'
      invariant json + 2 <= j <= n && AfterLine(a[j..n]) == AfterLine(a[json + 2..n])
      decreases n - j
    {
      assert a[j..n][1..] == a[j + 1..n];
      if a[j] == '\n' { return j + 1; }
      j := j + 1;
    }
  }

  method SkipMultiline(a: array<char>, json: nat, n: nat) returns (j: nat)
    requires Holds(a, json, n) && json + 2 <= n
    ensures json + 2 <= j <= n && a[j..n] == AfterBlock(a[json + 2..n])
  {
    j := json + 2;
    while a[j] != '\0'
      invariant json + 2 <= j <= n && AfterBlock(a[j..n]) == AfterBlock(a[json + 2..n])
      decreases n - j
    {
      assert a[j..n][1..] == a[j + 1..n];
      if a[j] == '*' && a[j + 1] == '/' {
        assert a[j..n][2..] == a[j + 2..n];
        return j + 2;
      }
      j := j + 1;
    }
  }

  method CopyChar(a: array<char>, to: nat, from: nat)
    requires to <= from < a.Length
    modifies a
    ensures a[..to + 1] == old(a[..to]) + [old(a[from])]
    ensures forall i :: to < i < a.Length ==> a[i] == old(a[i])
    ensures to == from ==> a[to] == old(a[to])
  {
    a[to] := a[from];
  }

  /** One turn of the string loop. */
  method StringStep(a: array<char>, json: nat, into: nat, n: nat) returns (j: nat, o: nat, ended: bool)
    requires Holds(a, json, n) && into <= json < n
    modifies a
    ensures into < o <= j && json < j && Holds(a, j, n)
    ensures forall i :: j <= i < a.Length ==> a[i] == old(a[i])
    ensures a[..o] + (if ended then Minified(a[j..n]) else InString(a[j..n])) == old(a[..into] + InString(a[json..n]))
  {
    hide Minified, InString;
    ghost var head, text, rest := a[..into], a[json..n], a[json + 1..n];
    ghost var goal := head + InString(text);
    var c := a[json];
    FirstOf(a, json, n);
    CopyChar(a, into, json);
    j, o, ended := json + 1, into + 1, false;
    SameText(rest, a, j, n);
    if c == '\"' {
      QuoteEnds(head, text, rest, goal);
      ended := true;
    } else if c == '\\' && a[j] == '\"' {
      ghost var rest2 := a[j + 1..n];
      FirstOf(a, j, n);
      QuoteEscaped(head, text, rest2, goal);
      CopyChar(a, o, j);
      j, o := j + 1, o + 1;
      SameText(rest2, a, j, n);
    } else {
      QuoteGoesOn(head, text, rest, goal);
    }
  }

  lemma FirstOf(a: array<char>, j: nat, n: nat)
    requires j < n <= a.Length
    ensures a[j..n] == [a[j]] + a[j + 1..n]
  {
  }

  lemma SameText(text: string, a: array<char>, j: nat, n: nat)
    requires j <= n <= a.Length && |text| == n - j && forall i :: j <= i < n ==> a[i] == text[i - j]
    ensures a[j..n] == text
  {
  }

  method MinifyString(a: array<char>, json: nat, into: nat, n: nat) returns (j: nat, o: nat)
    requires Holds(a, json, n) && into <= json < n && a[json] == '\"'
    modifies a
    ensures into < o <= j && json < j && Holds(a, j, n)
    ensures forall i :: j <= i < a.Length ==> a[i] == old(a[i])
    ensures a[..o] + Minified(a[j..n]) == old(a[..into] + "\"" + InString(a[json + 1..n]))
  {
    hide Minified, InString;
    ghost var goal := a[..into] + "\"" + InString(a[json + 1..n]);
    ghost var text := a[json + 1..n];
    CopyChar(a, into, json);
    j, o := json + 1, into + 1;
    SameText(text, a, j, n);
    var ended := false;
    while a[j] != '\0'
      invariant into < o <= j && json < j && Holds(a, j, n)
      invariant forall i :: j <= i < a.Length ==> a[i] == old(a[i])
      invariant a[..o] + InString(a[j..n]) == goal
      decreases n - j
    {
      j, o, ended := StringStep(a, j, o, n);
      if ended { return; }
    }
    NothingLeft(a[j..n]);
  }

  lemma NothingLeft(s: string)
    requires s == ""
    ensures InString(s) == "" && Minified(s) == ""
  {
  }

  lemma QuoteEnds(head: string, s: string, rest: string, goal: string)
    requires s == ['\"'] + rest && head + InString(s) == goal
    ensures head + [s[0]] + Minified(rest) == goal
  {
    hide Minified;
    assert s[1..] == rest;
  }

  lemma QuoteEscaped(head: string, s: string, rest: string, goal: string)
    requires s == ['\\'] + (['\"'] + rest) && head + InString(s) == goal
    ensures head + [s[0]] + [s[1]] + InString(rest) == goal
  {
    hide Minified;
    assert s[..2] == [s[0]] + [s[1]] && s[2..] == rest;
  }

  lemma QuoteGoesOn(head: string, s: string, rest: string, goal: string)
    requires s != "" && s == [s[0]] + rest && head + InString(s) == goal && s[0] != '\"'
    requires !(s[0] == '\\' && |s| > 1 && s[1] == '\"')
    ensures head + [s[0]] + InString(rest) == goal
  {
    hide Minified;
    assert s[1..] == rest;
  }

  /** One turn of the main loop. */
  method MinifyStep(a: array<char>, json: nat, into: nat, n: nat) returns (j: nat, o: nat)
    requires Holds(a, json, n) && into <= json < n
    modifies a
    ensures json < j && into <= o <= j && Holds(a, j, n)
    ensures a[..o] + Minified(a[j..n]) == old(a[..into] + Minified(a[json..n]))
  {
    hide InString, Minified;
    ghost var head, text, rest := a[..into], a[json..n], a[json + 1..n];
    FirstOf(a, json, n);
    j, o := json + 1, into;
    if IsBlank(a[json]) {
      BlankSkipped(text, rest);
    } else if a[json] == '/' {
      CommentSkipped(text, rest);
      assert rest != "" ==> rest[0] == a[json + 1] && rest[1..] == a[json + 2..n];
      if a[json + 1] == '/' {
        j := SkipOneline(a, json, n);
      } else if a[json + 1] == '*' {
        j := SkipMultiline(a, json, n);
      }
    } else if a[json] == '\"' {
      StringBegins(text, rest);
      assert head + ("\"" + InString(rest)) == head + "\"" + InString(rest);
      j, o := MinifyString(a, json, into, n);
    } else {
      OneCopied(text, rest);
      assert head + ([text[0]] + Minified(rest)) == head + [text[0]] + Minified(rest);
      CopyChar(a, into, json);
      SameText(rest, a, json + 1, n);
      o := into + 1;
    }
  }

  /** The text shrinks where it stands: what is written never passes what is still to be read. */
  method MinifyInPlace(a: array<char>, n: nat) returns (m: nat)
    requires Holds(a, 0, n)
    modifies a
    ensures m <= n && a[m] == '\0' && a[..m] == Minified(old(a[..n]))
  {
    hide InString, Minified;
    ghost var goal := Minified(a[..n]);
    var json, into := 0, 0;
    assert a[0..n] == a[..n] && a[..0] + goal == goal;
    while a[json] != '\0'
      invariant into <= json && Holds(a, json, n)
      invariant a[..into] + Minified(a[json..n]) == goal
      decreases n - json
    {
      json, into := MinifyStep(a, json, into, n);
    }
    NothingLeft(a[json..n]);
    assert a[..into] + "" == a[..into];
    a[into] := '\0';
    m := into;
  }

  lemma BlankSkipped(s: string, rest: string)
    requires s != "" && s == [s[0]] + rest && IsBlank(s[0])
    ensures Minified(s) == Minified(rest)
  {
    hide InString;
    assert s[1..] == rest;
  }

  lemma CommentSkipped(s: string, rest: string)
    requires s == ['/'] + rest
    ensures Minified(s) == if rest != "" && rest[0] == '/' then Minified(AfterLine(rest[1..]))
                           else if rest != "" && rest[0] == '*' then Minified(AfterBlock(rest[1..]))
                           else Minified(rest)
  {
    hide InString;
    assert s[1..] == rest && (rest != "" ==> s[1] == rest[0] && s[2..] == rest[1..]);
  }

  lemma StringBegins(s: string, rest: string)
    requires s == ['\"'] + rest
    ensures Minified(s) == "\"" + InString(rest)
  {
    hide InString;
    assert s[1..] == rest;
  }

  lemma OneCopied(s: string, rest: string)
    requires s != "" && s == [s[0]] + rest && CopiedAsIs(s[0])
    ensures Minified(s) == [s[0]] + Minified(rest)
  {
    hide InString;
    assert s[1..] == rest;
  }
}
