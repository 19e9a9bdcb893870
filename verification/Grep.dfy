/** The pattern matcher of grep.c: literals, '.', c*, a leading ^ and a final $. A C string is a
    `string` without its NUL. */
module Grep {

  // ---- what a pattern denotes ----

  datatype Item = One(c: char) | Star(c: char)

  /** The items of a pattern after its ^, without a final $. */
  function Body(re: string): seq<Item> {
    if re == [] || re == "$" then []
    else if |re| >= 2 && re[1] == '*' then [Star(re[0])] + Body(re[2..])
    else [One(re[0])] + Body(re[1..])
  }

  /** The pattern ends in a $ that stands for the end of the text. */
  predicate Dollar(re: string) {
    if re == [] then false
    else if |re| >= 2 && re[1] == '*' then Dollar(re[2..])
    else re == "$" || Dollar(re[1..])
  }

  predicate Fits(c: char, x: char) {
    c == '.' || c == x
  }

  predicate Accepts(item: Item, w: string) {
    match item
    case One(c) => |w| == 1 && Fits(c, w[0])
    case Star(c) => forall i :: 0 <= i < |w| ==> Fits(c, w[i])
  }

  /** w is one word per item, strung together. */
  ghost predicate InLanguage(items: seq<Item>, w: string) {
    if items == [] then w == []
    else exists k: nat :: 0 <= k <= |w| && Accepts(items[0], w[..k]) && InLanguage(items[1..], w[k..])
  }

  /** The pattern matches text[i..j]. */
  ghost predicate MatchesAt(re: string, text: string, i: nat, j: nat) {
    i <= j <= |text| && InLanguage(Body(re), text[i..j]) && (Dollar(re) ==> j == |text|)
  }

  ghost predicate MatchesFrom(re: string, text: string, i: nat) {
    exists j: nat :: MatchesAt(re, text, i, j)
  }

  /** Some part of the text, from its beginning if the pattern starts with ^, is in the pattern's
      language and reaches the end of the text if the pattern ends with $. */
  ghost predicate Matches(re: string, text: string) {
    if re != [] && re[0] == '^' then MatchesFrom(re[1..], text, 0)
    else exists i: nat :: MatchesFrom(re, text, i)
  }

  // ---- the matcher ----

  /** The rest of the text matters alone. */
  lemma Suffix(re: string, text: string, i: nat)
    requires i <= |text|
    ensures MatchesFrom(re, text, i) <==> MatchesFrom(re, text[i..], 0)
  {
    if j: nat :| MatchesAt(re, text, i, j) {
      assert text[i..][0..j - i] == text[i..j];
      assert MatchesAt(re, text[i..], 0, j - i);
    }
    if j: nat :| MatchesAt(re, text[i..], 0, j) {
      assert text[i..][0..j] == text[i..i + j];
      assert MatchesAt(re, text, i, i + j);
    }
  }

  lemma OneFrom(re: string, text: string)
    requires re != [] && !(|re| >= 2 && re[1] == '*') && re != "$"
    ensures MatchesFrom(re, text, 0) <==>
      text != [] && (re[0] == '.' || re[0] == text[0]) && MatchesFrom(re[1..], text[1..], 0)
  {
    assert Body(re)[0] == One(re[0]) && Body(re)[1..] == Body(re[1..]);
    if j: nat :| MatchesAt(re, text, 0, j) {
      var w := text[0..j];
      var k: nat :| 0 <= k <= |w| && Accepts(One(re[0]), w[..k]) && InLanguage(Body(re[1..]), w[k..]);
      assert w[k..] == text[1..][0..j - 1];
      assert MatchesAt(re[1..], text[1..], 0, j - 1);
    }
    if text != [] && Fits(re[0], text[0]) {
      if j: nat :| MatchesAt(re[1..], text[1..], 0, j) {
        var w := text[0..j + 1];
        assert w[1..] == text[1..][0..j] && Accepts(One(re[0]), w[..1]);
        assert MatchesAt(re, text, 0, j + 1);
      }
    }
  }

  /** A run of m characters that fit c, and then the rest of the pattern. */
  ghost predicate StarSplits(c: char, re: string, text: string, m: nat) {
    m <= |text| && (forall i :: 0 <= i < m ==> c == '.' || text[i] == c) && MatchesFrom(re, text[m..], 0)
  }

  lemma StarFrom(re: string, text: string)
    requires |re| >= 2 && re[1] == '*'
    ensures MatchesFrom(re, text, 0) <==> exists m: nat :: StarSplits(re[0], re[2..], text, m)
  {
    assert Body(re)[0] == Star(re[0]) && Body(re)[1..] == Body(re[2..]);
    if j: nat :| MatchesAt(re, text, 0, j) {
      var w := text[0..j];
      var k: nat :| 0 <= k <= |w| && Accepts(Star(re[0]), w[..k]) && InLanguage(Body(re[2..]), w[k..]);
      assert w[..k] == text[..k] && w[k..] == text[k..][0..j - k];
      assert forall i :: 0 <= i < k ==> text[i] == w[..k][i];
      assert MatchesAt(re[2..], text[k..], 0, j - k);
      assert StarSplits(re[0], re[2..], text, k);
    }
    if m: nat :| StarSplits(re[0], re[2..], text, m) {
      var j: nat :| MatchesAt(re[2..], text[m..], 0, j);
      var w := text[0..m + j];
      assert w[..m] == text[..m] && w[m..] == text[m..][0..j];
      assert MatchesAt(re, text, 0, m + j);
    }
  }

  lemma EmptyFrom(re: string, text: string)
    requires re == [] || re == "$"
    ensures MatchesFrom(re, text, 0) <==> re == [] || text == []
  {
    assert re == [] ==> MatchesAt(re, text, 0, 0);
    assert text == [] ==> MatchesAt(re, text, 0, 0);
  }

  method MatchHere(re: string, text: string) returns (found: bool)
    ensures found <==> MatchesFrom(re, text, 0)
    decreases |re|, 0
  {
    if re == [] || re == "$" { EmptyFrom(re, text); }
    if re == [] { return true; }
    if |re| >= 2 && re[1] == '*' {
      StarFrom(re, text);
      found := MatchStar(re[0], re[2..], text);
      return;
    }
    if re[0] == '$' && |re| == 1 { return text == []; }
    OneFrom(re, text);
    if text != [] && (re[0] == '.' || re[0] == text[0]) {
      found := MatchHere(re[1..], text[1..]);
      return;
    }
    return false;
  }

  /** Looks for the rest of the pattern after ever longer runs of c, the shortest first. */
  method MatchStar(c: char, re: string, text: string) returns (found: bool)
    ensures found <==> exists m: nat :: StarSplits(c, re, text, m)
    decreases |re|, 1
  {
    var m := 0;
    while true
      invariant m <= |text| && forall i :: 0 <= i < m ==> c == '.' || text[i] == c
      invariant forall k :: 0 <= k < m ==> !StarSplits(c, re, text, k)
      decreases |text| - m
    {
      found := MatchHere(re, text[m..]);
      if found {
        assert StarSplits(c, re, text, m);
        return;
      }
      if m == |text| || !(text[m] == c || c == '.') { break; }
      m := m + 1;
    }
    assert m < |text| ==> c != '.' && text[m] != c;
  }

  method Match(re: string, text: string) returns (found: bool)
    ensures found <==> Matches(re, text)
    ensures re != [] && re[0] == '^' ==> (found <==> MatchesFrom(re[1..], text, 0))
    ensures re == [] || re[0] != '^' ==> (found <==> exists i: nat :: MatchesFrom(re, text, i))
  {
    if re != [] && re[0] == '^' {
      found := MatchHere(re[1..], text);
      return;
    }
    var i := 0;
    while true
      invariant i <= |text|
      invariant forall k: nat :: k < i ==> !MatchesFrom(re, text, k)
      decreases |text| - i
    {
      found := MatchHere(re, text[i..]);
      Suffix(re, text, i);
      if found { return; }
      if i == |text| { break; }
      i := i + 1;
    }
  }
}
