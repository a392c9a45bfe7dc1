/** The regular-expression matcher of grep against the language its patterns
    denote. */
module Matcher {
  import opened CStrings

  // ----- patterns and their language -----

  /** One item of a pattern.  '.' stands for any character. */
  datatype Item = One(c: char) | Star(c: char)

  /** A pattern after an optional '^': its items and whether it ends in '$'. */
  datatype Pattern = Pattern(items: seq<Item>, atEnd: bool)

  predicate Fits(c: char, x: char) { c == '.' || c == x }

  ghost predicate ItemLanguage(p: Item, u: string) {
    match p
    case One(c) => |u| == 1 && Fits(c, u[0])
    case Star(c) => forall i :: 0 <= i < |u| ==> Fits(c, u[i])
  }

  /** `s` is a concatenation of one word of each item. */
  ghost predicate Language(ps: seq<Item>, s: string)
    decreases |ps|
  {
    if ps == [] then s == ""
    else exists k :: 0 <= k <= |s| && ItemLanguage(ps[0], s[..k]) && Language(ps[1..], s[k..])
  }

  /** How the matcher reads a pattern: a character before '*' is repeated, a '$' on
      its own at the end anchors, everything else is one character. */
  function Tokens(re: string): (p: Pattern) {
    if re == "" then Pattern([], false)
    else if |re| > 1 && re[1] == '*' then
      var p := Tokens(re[2..]);
      Pattern([Star(re[0])] + p.items, p.atEnd)
    else if re == "$" then Pattern([], true)
    else
      var p := Tokens(re[1..]);
      Pattern([One(re[0])] + p.items, p.atEnd)
  }

  /** Some prefix of `text` (all of it, for an anchored pattern) is in the language. */
  ghost predicate MatchesPrefix(p: Pattern, text: string) {
    exists j :: 0 <= j <= |text| && (p.atEnd ==> j == |text|) && Language(p.items, text[..j])
  }

  /** What grep looks for in a line. */
  ghost predicate MatchesLine(re: string, text: string) {
    if re != "" && re[0] == '^' then MatchesPrefix(Tokens(re[1..]), text)
    else exists i :: 0 <= i <= |text| && MatchesPrefix(Tokens(re), text[i..])
  }

  /** The pattern is anchored at the end exactly when its last character is '$'. */
  lemma {:induction false} AnchoredByDollar(re: string)
    ensures Tokens(re).atEnd <==> re != "" && re[|re|-1] == '$'
  {
    if re == "" {
    } else if |re| > 1 && re[1] == '*' {
      AnchoredByDollar(re[2..]);
    } else if re != "$" {
      AnchoredByDollar(re[1..]);
    }
  }

  // ----- unfolding the language from the front -----

  lemma PrefixEmpty(atEnd: bool, text: string)
    ensures MatchesPrefix(Pattern([], atEnd), text) <==> !atEnd || text == ""
  {
    if !atEnd { assert Language([], text[..0]); }
    if text == "" { assert Language([], text[..0]); }
  }

  lemma PrefixOne(c: char, p: Pattern, text: string)
    ensures MatchesPrefix(Pattern([One(c)] + p.items, p.atEnd), text)
      <==> text != "" && Fits(c, text[0]) && MatchesPrefix(p, text[1..])
  {
    var ps := [One(c)] + p.items;
    assert ps[1..] == p.items;
    if MatchesPrefix(Pattern(ps, p.atEnd), text) {
      var j :| 0 <= j <= |text| && (p.atEnd ==> j == |text|) && Language(ps, text[..j]);
      var k :| 0 <= k <= j && ItemLanguage(ps[0], text[..j][..k]) && Language(ps[1..], text[..j][k..]);
      assert k == 1 && text[1..][..j-1] == text[..j][1..];
    }
    if text != "" && Fits(c, text[0]) && MatchesPrefix(p, text[1..]) {
      var j :| 0 <= j <= |text[1..]| && (p.atEnd ==> j == |text[1..]|) && Language(p.items, text[1..][..j]);
      assert text[..j+1][..1] == text[..1] && text[..j+1][1..] == text[1..][..j];
      assert ItemLanguage(ps[0], text[..j+1][..1]) && Language(ps[1..], text[..j+1][1..]);
      assert Language(ps, text[..j+1]);
    }
  }

  ghost predicate Run(c: char, text: string, k: nat) {
    k <= |text| && forall i :: 0 <= i < k ==> Fits(c, text[i])
  }

  lemma PrefixStar(c: char, p: Pattern, text: string)
    ensures MatchesPrefix(Pattern([Star(c)] + p.items, p.atEnd), text)
      <==> exists k: nat :: Run(c, text, k) && MatchesPrefix(p, text[k..])
  {
    var ps := [Star(c)] + p.items;
    assert ps[1..] == p.items;
    if MatchesPrefix(Pattern(ps, p.atEnd), text) {
      var j :| 0 <= j <= |text| && (p.atEnd ==> j == |text|) && Language(ps, text[..j]);
      var k :| 0 <= k <= j && ItemLanguage(ps[0], text[..j][..k]) && Language(ps[1..], text[..j][k..]);
      forall i | 0 <= i < k ensures Fits(c, text[i]) { assert text[..j][..k][i] == text[i]; }
      assert Run(c, text, k);
      assert text[k..][..j-k] == text[..j][k..];
      assert MatchesPrefix(p, text[k..]);
    }
    if exists k: nat :: Run(c, text, k) && MatchesPrefix(p, text[k..]) {
      var k: nat :| Run(c, text, k) && MatchesPrefix(p, text[k..]);
      var j :| 0 <= j <= |text[k..]| && (p.atEnd ==> j == |text[k..]|) && Language(p.items, text[k..][..j]);
      assert text[..k+j][..k] == text[..k] && text[..k+j][k..] == text[k..][..j];
      assert ItemLanguage(ps[0], text[..k+j][..k]) && Language(ps[1..], text[..k+j][k..]);
      assert Language(ps, text[..k+j]);
    }
  }

  // ----- the matcher -----

  /** `c* re` at the beginning of `text`. */
  method MatchStar(c: char, re: string, text: string) returns (found: bool)
    requires IsCString(re) && IsCString(text)
    ensures found <==> exists k: nat :: Run(c, text, k) && MatchesPrefix(Tokens(re), text[k..])
    decreases |re|, |text|, 1
  {
    var i := 0;
    while true
      invariant Run(c, text, i)
      invariant forall k: nat :: k < i ==> !MatchesPrefix(Tokens(re), text[k..])
      decreases |text| - i
    {
      found := MatchHere(re, text[i..]);
      if found { return; }
      if !(At(text, i) != '\0') { break; }
      i := i + 1;
      if !(text[i-1] == c || c == '.') { break; }
    }
    forall k: nat | Run(c, text, k) ensures !MatchesPrefix(Tokens(re), text[k..]) {
    }
  }

  /** `re` at the beginning of `text`. */
  method MatchHere(re: string, text: string) returns (found: bool)
    requires IsCString(re) && IsCString(text)
    ensures found <==> MatchesPrefix(Tokens(re), text)
    decreases |re|, |text|, 0
  {
    if At(re, 0) == '\0' {
      PrefixEmpty(false, text);
      return true;
    }
    if At(re, 1) == '*' {
      PrefixStar(re[0], Tokens(re[2..]), text);
      found := MatchStar(re[0], re[2..], text);
      return;
    }
    if re[0] == '$' && At(re, 1) == '\0' {
      PrefixEmpty(true, text);
      return At(text, 0) == '\0';
    }
    PrefixOne(re[0], Tokens(re[1..]), text);
    if At(text, 0) != '\0' && (re[0] == '.' || re[0] == text[0]) {
      found := MatchHere(re[1..], text[1..]);
      return;
    }
    return false;
  }

  /** grep's test of one line. */
  method Match(re: string, text: string) returns (found: bool)
    requires IsCString(re) && IsCString(text)
    ensures found <==> MatchesLine(re, text)
  {
    if At(re, 0) == '^' {
      found := MatchHere(re[1..], text);
      return;
    }
    var i := 0;
    while true
      invariant 0 <= i <= |text|
      invariant forall k :: 0 <= k < i ==> !MatchesPrefix(Tokens(re), text[k..])
      decreases |text| - i
    {
      found := MatchHere(re, text[i..]);
      if found { return; }
      if !(At(text, i) != '\0') { break; }
      i := i + 1;
    }
  }

  // ----- the line predicate in terms of substrings -----

  /** Without '^' and '$': some substring of the line is in the language. */
  lemma UnanchoredIsSubstring(re: string, text: string)
    requires re == "" || re[0] != '^'
    requires !Tokens(re).atEnd
    ensures MatchesLine(re, text) <==>
            exists i, j :: 0 <= i <= j <= |text| && Language(Tokens(re).items, text[i..j])
  {
    var p := Tokens(re);
    if MatchesLine(re, text) {
      var i :| 0 <= i <= |text| && MatchesPrefix(p, text[i..]);
      var j :| 0 <= j <= |text[i..]| && Language(p.items, text[i..][..j]);
      assert text[i..][..j] == text[i..i+j];
    }
    if i, j :| 0 <= i <= j <= |text| && Language(p.items, text[i..j]) {
      MatchesFrom(p, text, i, j);
    }
  }

  lemma MatchesFrom(p: Pattern, text: string, i: nat, j: nat)
    requires !p.atEnd && i <= j <= |text| && Language(p.items, text[i..j])
    ensures MatchesPrefix(p, text[i..])
  {
    assert text[i..][..j-i] == text[i..j];
  }

  /** With '$' only: some suffix of the line is in the language. */
  lemma DollarIsSuffix(re: string, text: string)
    requires re == "" || re[0] != '^'
    requires Tokens(re).atEnd
    ensures MatchesLine(re, text) <==> exists i :: 0 <= i <= |text| && Language(Tokens(re).items, text[i..])
  {
    var ps := Tokens(re).items;
    if MatchesLine(re, text) {
      var i :| 0 <= i <= |text| && MatchesPrefix(Tokens(re), text[i..]);
      assert text[i..][..|text[i..]|] == text[i..];
    }
    if exists i :: 0 <= i <= |text| && Language(ps, text[i..]) {
      var i :| 0 <= i <= |text| && Language(ps, text[i..]);
      assert text[i..][..|text[i..]|] == text[i..];
      assert MatchesPrefix(Tokens(re), text[i..]);
    }
  }
}
