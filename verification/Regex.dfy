/** The backtracking matcher over a compiled token list. */
module Regex {
  datatype Token =
    | Char(c: char) | Dot | Begin | End | Star | Plus | Ques
    | List(negated: bool, chars: seq<char>)

  predicate IsQuantifier(t: Token) {
    t.Star? || t.Plus? || t.Ques?
  }

  /** One text character against one node. A quantifier standing where an atom belongs
      has no character to compare with, so it matches nothing. */
  predicate OneMatches(t: Token, c: char) {
    match t
    case Char(d) => c == d
    case Dot => true
    case Begin => c == '^'
    case End => c == '$'
    case List(negated, chars) => (c in chars) != negated
    case _ => false
  }

  predicate CountOk(quantifier: Token, k: nat) {
    match quantifier
    case Plus => k >= 1
    case Ques => k <= 1
    case _ => true
  }

  ghost predicate AllMatch(t: Token, v: string) {
    forall i :: 0 <= i < |v| ==> OneMatches(t, v[i])
  }

  /** The token list matches some prefix of `s`, all of it under a final `$`. */
  ghost predicate Here(re: seq<Token>, s: string)
    decreases |re|
  {
    if re == [] then true
    else if re == [End] then s == []
    else if |re| >= 2 && IsQuantifier(re[1]) then
      exists k :: 0 <= k <= |s| && CountOk(re[1], k) && AllMatch(re[0], s[..k]) && Here(re[2..], s[k..])
    else s != [] && OneMatches(re[0], s[0]) && Here(re[1..], s[1..])
  }

  /** The first `k` characters are taken by the repeated atom and the rest matches `rest`. */
  ghost predicate RepeatThen(atom: Token, quantifier: Token, rest: seq<Token>, s: string, k: nat)
    requires k <= |s|
  {
    CountOk(quantifier, k) && AllMatch(atom, s[..k]) && Here(rest, s[k..])
  }

  lemma HereRepeats(re: seq<Token>, s: string)
    requires |re| >= 2 && IsQuantifier(re[1])
    ensures Here(re, s) <==> exists k :: 0 <= k <= |s| && RepeatThen(re[0], re[1], re[2..], s, k)
  {
    if Here(re, s) {
      var k :| 0 <= k <= |s| && CountOk(re[1], k) && AllMatch(re[0], s[..k]) && Here(re[2..], s[k..]);
      assert RepeatThen(re[0], re[1], re[2..], s, k);
    }
  }

  /** Length of the longest run of `atom` at `pos`. */
  method RunEnd(atom: Token, text: string, pos: nat) returns (t: nat)
    requires pos <= |text|
    ensures pos <= t <= |text| && AllMatch(atom, text[pos..t])
    ensures t < |text| ==> !OneMatches(atom, text[t])
  {
    t := pos;
    while t < |text| && OneMatches(atom, text[t])
      invariant pos <= t <= |text| && AllMatch(atom, text[pos..t])
    {
      OneMore(atom, text, pos, t);
      t := t + 1;
    }
  }

  lemma OneMore(atom: Token, text: string, pos: nat, t: nat)
    requires pos <= t < |text| && AllMatch(atom, text[pos..t]) && OneMatches(atom, text[t])
    ensures AllMatch(atom, text[pos..t + 1])
  {
    assert text[pos..t + 1] == text[pos..t] + [text[t]];
  }

  lemma Shift(atom: Token, quantifier: Token, rest: seq<Token>, text: string, pos: nat, t: nat)
    requires pos <= t <= |text|
    ensures RepeatThen(atom, quantifier, rest, text[pos..], t - pos) <==>
            CountOk(quantifier, t - pos) && AllMatch(atom, text[pos..t]) && Here(rest, text[t..])
  {
    assert text[pos..][..t - pos] == text[pos..t];
    assert text[pos..][t - pos..] == text[t..];
  }

  /** Shortest first. */
  method MatchStar(atom: Token, rest: seq<Token>, longest: bool, text: string, pos: nat) returns (r: bool)
    requires pos <= |text|
    ensures r <==> exists k :: 0 <= k <= |text| - pos && RepeatThen(atom, Star, rest, text[pos..], k)
    decreases |rest|, 1
  {
    var t := pos;
    while true
      invariant pos <= t <= |text| && AllMatch(atom, text[pos..t])
      invariant forall k :: 0 <= k < t - pos ==> !RepeatThen(atom, Star, rest, text[pos..], k)
      decreases |text| - t
    {
      Shift(atom, Star, rest, text, pos, t);
      var here := MatchHere(rest, longest, text, t);
      if here { return true; }
      if t >= |text| || !OneMatches(atom, text[t]) {
        NoLonger(atom, Star, rest, text, pos, t);
        return false;
      }
      OneMore(atom, text, pos, t);
      t := t + 1;
    }
  }

  /** A run stops at a character the atom refuses, so no longer repeat exists. */
  lemma NoLonger(atom: Token, quantifier: Token, rest: seq<Token>, text: string, pos: nat, t: nat)
    requires pos <= t <= |text| && (t < |text| ==> !OneMatches(atom, text[t]))
    ensures forall k :: t - pos < k <= |text| - pos ==> !RepeatThen(atom, quantifier, rest, text[pos..], k)
  {
    forall k | t - pos < k <= |text| - pos ensures !RepeatThen(atom, quantifier, rest, text[pos..], k) {
      assert text[pos..][..k][t - pos] == text[t];
    }
  }

  lemma SubRun(atom: Token, text: string, pos: nat, t: nat, u: nat)
    requires pos <= t <= u <= |text| && AllMatch(atom, text[pos..u])
    ensures AllMatch(atom, text[pos..t])
  {
    forall i | 0 <= i < t - pos ensures OneMatches(atom, text[pos..t][i]) {
      assert text[pos..t][i] == text[pos..u][i];
    }
  }

  /** Longest first. */
  method MatchStarLongest(atom: Token, rest: seq<Token>, longest: bool, text: string, pos: nat) returns (r: bool)
    requires pos <= |text|
    ensures r <==> exists k :: 0 <= k <= |text| - pos && RepeatThen(atom, Star, rest, text[pos..], k)
    decreases |rest|, 1
  {
    var end := RunEnd(atom, text, pos);
    NoLonger(atom, Star, rest, text, pos, end);
    var t := end;
    while true
      invariant pos <= t <= end
      invariant forall k :: t - pos < k <= |text| - pos ==> !RepeatThen(atom, Star, rest, text[pos..], k)
      decreases t
    {
      SubRun(atom, text, pos, t, end);
      Shift(atom, Star, rest, text, pos, t);
      var here := MatchHere(rest, longest, text, t);
      if here { return true; }
      if t == pos { return false; }
      t := t - 1;
    }
  }

  method MatchPlus(atom: Token, rest: seq<Token>, longest: bool, text: string, pos: nat) returns (r: bool)
    requires pos <= |text|
    ensures r <==> exists k :: 0 <= k <= |text| - pos && RepeatThen(atom, Plus, rest, text[pos..], k)
    decreases |rest|, 1
  {
    var t := pos;
    while t < |text| && OneMatches(atom, text[t])
      invariant pos <= t <= |text| && AllMatch(atom, text[pos..t])
      invariant forall k :: 0 <= k <= t - pos ==> !RepeatThen(atom, Plus, rest, text[pos..], k)
    {
      OneMore(atom, text, pos, t);
      t := t + 1;
      Shift(atom, Plus, rest, text, pos, t);
      var here := MatchHere(rest, longest, text, t);
      if here { return true; }
    }
    NoLonger(atom, Plus, rest, text, pos, t);
    return false;
  }

  method MatchPlusLongest(atom: Token, rest: seq<Token>, longest: bool, text: string, pos: nat) returns (r: bool)
    requires pos <= |text|
    ensures r <==> exists k :: 0 <= k <= |text| - pos && RepeatThen(atom, Plus, rest, text[pos..], k)
    decreases |rest|, 1
  {
    var end := RunEnd(atom, text, pos);
    NoLonger(atom, Plus, rest, text, pos, end);
    var t := end;
    while t > pos
      invariant pos <= t <= end
      invariant forall k :: t - pos < k <= |text| - pos ==> !RepeatThen(atom, Plus, rest, text[pos..], k)
    {
      SubRun(atom, text, pos, t, end);
      Shift(atom, Plus, rest, text, pos, t);
      var here := MatchHere(rest, longest, text, t);
      if here { return true; }
      t := t - 1;
    }
    return false;
  }

  /** At most one character, taken first when it can be. */
  method MatchQues(atom: Token, rest: seq<Token>, longest: bool, text: string, pos: nat) returns (r: bool)
    requires pos <= |text|
    ensures r <==> exists k :: 0 <= k <= |text| - pos && RepeatThen(atom, Ques, rest, text[pos..], k)
    decreases |rest|, 1
  {
    var t := pos;
    if t < |text| && OneMatches(atom, text[t]) {
      OneMore(atom, text, pos, t);
      t := t + 1;
    } else {
      NoLonger(atom, Ques, rest, text, pos, t);
    }
    while true
      invariant pos <= t <= pos + 1 && t <= |text| && AllMatch(atom, text[pos..t])
      invariant forall k :: t - pos < k <= |text| - pos ==> !RepeatThen(atom, Ques, rest, text[pos..], k)
      decreases t
    {
      Shift(atom, Ques, rest, text, pos, t);
      var here := MatchHere(rest, longest, text, t);
      if here { return true; }
      if t == pos { return false; }
      t := t - 1;
    }
  }

  /** Whichever strategy `longest` selects, the answer is the same. */
  method MatchHere(re: seq<Token>, longest: bool, text: string, pos: nat) returns (r: bool)
    requires pos <= |text|
    ensures r <==> Here(re, text[pos..])
    decreases |re|, 0
  {
    if re == [] { return true; }
    if re[0].End? && |re| == 1 { return pos == |text|; }
    if |re| >= 2 && IsQuantifier(re[1]) {
      HereRepeats(re, text[pos..]);
      var atom, rest := re[0], re[2..];
      if re[1].Star? && longest {
        r := MatchStarLongest(atom, rest, longest, text, pos);
      } else if re[1].Star? {
        r := MatchStar(atom, rest, longest, text, pos);
      } else if re[1].Plus? && longest {
        r := MatchPlusLongest(atom, rest, longest, text, pos);
      } else if re[1].Plus? {
        r := MatchPlus(atom, rest, longest, text, pos);
      } else {
        r := MatchQues(atom, rest, longest, text, pos);
      }
      return;
    }
    if pos < |text| && OneMatches(re[0], text[pos]) {
      assert text[pos..][1..] == text[pos + 1..];
      r := MatchHere(re[1..], longest, text, pos + 1);
      return;
    }
    return false;
  }

  /** A leading `^` pins the start; otherwise any start will do. */
  ghost predicate Found(re: seq<Token>, text: string) {
    if re != [] && re[0].Begin? then Here(re[1..], text)
    else exists i :: 0 <= i <= |text| && Here(re, text[i..])
  }

  method MatchTokens(re: seq<Token>, longest: bool, text: string) returns (r: bool)
    requires re != []
    ensures r <==> Found(re, text)
  {
    if re[0].Begin? {
      assert text[0..] == text;
      r := MatchHere(re[1..], longest, text, 0);
      return;
    }
    var i := 0;
    while i <= |text|
      invariant 0 <= i <= |text| + 1
      invariant forall k :: 0 <= k < i ==> !Here(re, text[k..])
    {
      r := MatchHere(re, longest, text, i);
      if r { return; }
      i := i + 1;
    }
    return false;
  }
}
