/** What the minifier leaves of any text, read as white space, comments, strings and the rest. */
module MinifyTexts {
  import opened Minify

  datatype Chunk =
    | Space(c: char)
    | LineComment(text: string)
    | BlockComment(text: string)
    | Quoted(text: string)
    | Slash
    | Other(c: char)

  /** A comment may also run off the end of the text. */
  datatype Ending = Complete | OpenLine(text: string) | OpenBlock(text: string)

  ghost predicate ClosesNowhere(s: string) {
    forall i :: 0 <= i < |s| - 1 ==> !(s[i] == '*' && s[i + 1] == '/')
  }

  /** A quote inside a string stands right behind a backslash, and its last character is none. */
  ghost predicate EscapesQuotes(s: string) {
    && (forall k :: 0 <= k < |s| && s[k] == '\"' ==> k > 0 && s[k - 1] == '\\')
    && (s != "" ==> s[|s| - 1] != '\\')
  }

  ghost predicate ValidChunk(c: Chunk, rest: string) {
    match c
    case Space(c) => c == ' ' || c == '\t' || c == '\r' || c == '\n'
    case LineComment(t) => '\n' !in t
    case BlockComment(t) => ClosesNowhere(t + "*")
    case Quoted(t) => EscapesQuotes(t)
    case Slash => rest != "" ==> rest[0] != '/' && rest[0] != '*'
    case Other(c) => c != ' ' && c != '\t' && c != '\r' && c != '\n' && c != '/' && c != '\"'
  }

  function ChunkText(c: Chunk): string {
    match c
    case Space(c) => [c]
    case LineComment(t) => "//" + t + "\n"
    case BlockComment(t) => "/*" + t + "*/"
    case Quoted(t) => "\"" + t + "\""
    case Slash => "/"
    case Other(c) => [c]
  }

  function EndingText(e: Ending): string {
    match e
    case Complete => ""
    case OpenLine(t) => "//" + t
    case OpenBlock(t) => "/*" + t
  }

  ghost predicate ValidEnding(e: Ending) {
    match e
    case Complete => true
    case OpenLine(t) => '\n' !in t
    case OpenBlock(t) => ClosesNowhere(t)
  }

  function WholeText(cs: seq<Chunk>, e: Ending): string {
    if cs == [] then EndingText(e) else ChunkText(cs[0]) + WholeText(cs[1..], e)
  }

  ghost predicate ValidText(cs: seq<Chunk>, e: Ending) {
    ValidEnding(e) &&
    forall i :: 0 <= i < |cs| ==> ValidChunk(cs[i], WholeText(cs[i + 1..], e))
  }

  /** Strings and all that is neither white space, comment nor slash. */
  function KeptText(cs: seq<Chunk>): string {
    if cs == [] then ""
    else (if cs[0].Quoted? || cs[0].Other? then ChunkText(cs[0]) else "") + KeptText(cs[1..])
  }

  lemma {:induction false} LineEnds(t: string, rest: string)
    requires '\n' !in t
    ensures AfterLine(t + ("\n" + rest)) == rest
  {
    var s := t + ("\n" + rest);
    if t == "" {
      assert s == "\n" + rest && s[1..] == rest;
    } else {
      assert s[0] == t[0] && s[1..] == t[1..] + ("\n" + rest);
      LineEnds(t[1..], rest);
    }
  }

  lemma {:induction false} LineRunsOff(t: string)
    requires '\n' !in t
    ensures AfterLine(t) == ""
  {
    if t != "" {
      assert t[0] in t;
      LineRunsOff(t[1..]);
    }
  }

  lemma {:induction false} BlockEnds(t: string, rest: string)
    requires ClosesNowhere(t + "*")
    ensures AfterBlock(t + ("*/" + rest)) == rest
  {
    var s := t + ("*/" + rest);
    if t == "" {
      assert s == "*/" + rest && s[0] == '*' && s[1] == '/' && s[2..] == rest;
    } else {
      var star := t + "*";
      assert s[0] == star[0] && s[1] == star[1] && !(star[0] == '*' && star[1] == '/');
      assert s[1..] == t[1..] + ("*/" + rest);
      assert star[1..] == t[1..] + "*";
      assert ClosesNowhere(star[1..]) by {
        forall i | 0 <= i < |star[1..]| - 1 ensures !(star[1..][i] == '*' && star[1..][i + 1] == '/') {
          assert star[1..][i] == star[i + 1] && star[1..][i + 1] == star[i + 1 + 1];
        }
      }
      BlockEnds(t[1..], rest);
    }
  }

  lemma {:induction false} BlockRunsOff(t: string)
    requires ClosesNowhere(t)
    ensures AfterBlock(t) == ""
  {
    if t != "" {
      if |t| > 1 { assert !(t[0] == '*' && t[0 + 1] == '/'); }
      assert ClosesNowhere(t[1..]) by {
        forall i | 0 <= i < |t[1..]| - 1 ensures !(t[1..][i] == '*' && t[1..][i + 1] == '/') {
          assert t[1..][i] == t[i + 1] && t[1..][i + 1] == t[i + 1 + 1];
        }
      }
      BlockRunsOff(t[1..]);
    }
  }

  lemma EscapesTail(s: string, n: nat)
    requires EscapesQuotes(s) && 0 < n <= |s| && (n < |s| ==> s[n] != '\"')
    ensures EscapesQuotes(s[n..])
  {
    var t := s[n..];
    forall k | 0 <= k < |t| && t[k] == '\"' ensures k > 0 && t[k - 1] == '\\' {
      assert s[n + k] == '\"';
      assert s[n + k - 1] == '\\';
    }
  }

  /** A string whose quotes are all escaped is copied up to its closing quote. */
  lemma {:induction false} StringCopied(t: string, rest: string)
    requires EscapesQuotes(t)
    ensures InString(t + ("\"" + rest)) == t + ("\"" + Minified(rest))
    decreases |t|
  {
    hide Minified;
    var s := t + ("\"" + rest);
    if t == "" {
      assert s == "\"" + rest && s[1..] == rest;
    } else if t[0] == '\\' && |t| > 1 && t[1] == '\"' {
      QuotePair(t);
      StringCopied(t[2..], rest);
      assert s[0] == t[0] && s[1] == t[1];
      assert s[..2] == t[..2] && s[2..] == t[2..] + ("\"" + rest);
    } else {
      EscapesTail(t, 1);
      StringCopied(t[1..], rest);
      assert s[0] == t[0] && s[1..] == t[1..] + ("\"" + rest);
      assert |t| > 1 ==> s[1] == t[1];
    }
  }

  lemma QuotePair(t: string)
    requires EscapesQuotes(t) && |t| > 1 && t[0] == '\\' && t[1] == '\"'
    ensures EscapesQuotes(t[2..])
  {
    if |t| > 2 { NoTwoQuotes(t, 1); }
    EscapesTail(t, 2);
  }

  lemma NoTwoQuotes(s: string, k: nat)
    requires EscapesQuotes(s) && k + 1 < |s| && s[k] == '\"'
    ensures s[k + 1] != '\"'
  {
  }

  lemma LineCommentGoes(t: string, rest: string)
    requires '\n' !in t
    ensures Minified("//" + t + "\n" + rest) == Minified(rest)
  {
    hide Minified, AfterLine;
    var s, tail := "//" + t + "\n" + rest, "/" + (t + ("\n" + rest));
    LineEnds(t, rest);
    assert tail[1..] == t + ("\n" + rest);
    assert s == ['/'] + tail;
    CommentSkipped(s, tail);
  }

  lemma BlockCommentGoes(t: string, rest: string)
    requires ClosesNowhere(t + "*")
    ensures Minified("/*" + t + "*/" + rest) == Minified(rest)
  {
    hide Minified, AfterBlock, ClosesNowhere;
    var s, tail := "/*" + t + "*/" + rest, "*" + (t + ("*/" + rest));
    BlockEnds(t, rest);
    assert tail[1..] == t + ("*/" + rest);
    assert s == ['/'] + tail;
    CommentSkipped(s, tail);
  }

  lemma StringStays(t: string, rest: string)
    requires EscapesQuotes(t)
    ensures Minified("\"" + t + "\"" + rest) == "\"" + t + "\"" + Minified(rest)
  {
    hide Minified, InString, EscapesQuotes;
    var s, tail := "\"" + t + "\"" + rest, t + ("\"" + rest);
    StringCopied(t, rest);
    assert s == ['\"'] + tail;
    StringBegins(s, tail);
    assert "\"" + (t + ("\"" + Minified(rest))) == "\"" + t + "\"" + Minified(rest);
  }

  /** One chunk of a text. */
  lemma ChunkMinified(c: Chunk, rest: string)
    requires ValidChunk(c, rest)
    ensures Minified(ChunkText(c) + rest) == (if c.Quoted? || c.Other? then ChunkText(c) else "") + Minified(rest)
  {
    hide Minified, InString, AfterLine, AfterBlock, ClosesNowhere, EscapesQuotes;
    assert "" + Minified(rest) == Minified(rest);
    match c
    case Space(b) => BlankSkipped(ChunkText(c) + rest, rest);
    case LineComment(t) => LineCommentGoes(t, rest);
    case BlockComment(t) => BlockCommentGoes(t, rest);
    case Quoted(t) => StringStays(t, rest);
    case Slash => CommentSkipped(ChunkText(c) + rest, rest);
    case Other(o) => OneCopied(ChunkText(c) + rest, rest);
  }

  lemma EndingMinified(e: Ending)
    requires ValidEnding(e)
    ensures Minified(EndingText(e)) == ""
  {
    hide Minified, InString, AfterLine, AfterBlock, ClosesNowhere;
    NothingLeft("");
    match e
    case Complete =>
    case OpenLine(t) =>
      LineRunsOff(t);
      assert EndingText(e) == ['/'] + ("/" + t) && ("/" + t)[1..] == t;
      CommentSkipped(EndingText(e), "/" + t);
    case OpenBlock(t) =>
      BlockRunsOff(t);
      assert EndingText(e) == ['/'] + ("*" + t) && ("*" + t)[1..] == t;
      CommentSkipped(EndingText(e), "*" + t);
  }

  /** White space, comments and stray slashes go; strings and everything else stay. */
  lemma {:induction false} MinifiedMeaning(cs: seq<Chunk>, e: Ending)
    requires ValidText(cs, e)
    ensures Minified(WholeText(cs, e)) == KeptText(cs)
    decreases |cs|
  {
    hide Minified, ChunkText, ValidChunk, EndingText, ValidEnding;
    if cs == [] {
      EndingMinified(e);
    } else {
      forall i | 0 <= i < |cs[1..]| ensures ValidChunk(cs[1..][i], WholeText(cs[1..][i + 1..], e)) {
        assert cs[1..][i] == cs[i + 1] && cs[1..][i + 1..] == cs[i + 1 + 1..];
      }
      ChunkMinified(cs[0], WholeText(cs[1..], e));
      MinifiedMeaning(cs[1..], e);
    }
  }
}
