/** The regular expressions of grep.c: the matcher, and the language its patterns
    denote. */
module Grep {

  // ---- The language ----

  /** A pattern's body is characters, '.' among them, some of them starred. */
  datatype Item = One(c: char) | Star(c: char)

  /** start and end say whether it is anchored by ^ and $. */
  datatype Pattern = Pattern(start: bool, items: seq<Item>, end: bool)

  predicate Fits(c: char, x: char) {
    c == '.' || c == x
  }

  /** Strings an item stands for. */
  predicate InItem(x: Item, s: string) {
    match x
    case One(c) => |s| == 1 && Fits(c, s[0])
    case Star(c) => forall k :: 0 <= k < |s| ==> Fits(c, s[k])
  }

  /** Strings that split into one for each item, in order. */
  ghost predicate InItems(items: seq<Item>, s: string) {
    if items == [] then s == ""
    else exists k :: 0 <= k <= |s| && InItem(items[0], s[..k]) && InItems(items[1..], s[k..])
  }

  /** The text has a substring in the language, where the anchors want it. */
  ghost predicate Denotes(p: Pattern, text: string) {
    exists i, j :: 0 <= i <= j <= |text| && InItems(p.items, text[i..j])
                   && (p.start ==> i == 0) && (p.end ==> j == |text|)
  }

  /** How a pattern is read: ^ counts at the front only, $ at the very end only, and a
      star belongs to the character before it. */
  function Body(re: string): (seq<Item>, bool) {
    if re == "" then ([], false)
    else if |re| >= 2 && re[1] == '*' then ([Star(re[0])] + Body(re[2..]).0, Body(re[2..]).1)
    else if re == "$" then ([], true)
    else ([One(re[0])] + Body(re[1..]).0, Body(re[1..]).1)
  }

  function Parsed(re: string): Pattern {
    if re != "" && re[0] == '^' then Pattern(true, Body(re[1..]).0, Body(re[1..]).1)
    else Pattern(false, Body(re).0, Body(re).1)
  }

  // ---- The matcher ----

  predicate MatchHere(re: string, text: string)
    decreases |re|, |text|, 0
  {
    if re == "" then true
    else if |re| >= 2 && re[1] == '*' then MatchStar(re[0], re[2..], text)
    else if re == "$" then text == ""
    else text != "" && Fits(re[0], text[0]) && MatchHere(re[1..], text[1..])
  }

  predicate MatchStar(c: char, re: string, text: string)
    decreases |re|, |text|, 1
  {
    MatchHere(re, text) || (text != "" && Fits(c, text[0]) && MatchStar(c, re, text[1..]))
  }

  /** Somewhere from the start of the text on. */
  predicate MatchFrom(re: string, text: string)
    decreases |text|
  {
    MatchHere(re, text) || (text != "" && MatchFrom(re, text[1..]))
  }

  predicate Match(re: string, text: string) {
    if re != "" && re[0] == '^' then MatchHere(re[1..], text) else MatchFrom(re, text)
  }

  // ---- Correctness ----

  /** A prefix of the text is in the body's language, all of it if so anchored. */
  ghost predicate Prefix(items: seq<Item>, end: bool, text: string) {
    exists j :: 0 <= j <= |text| && InItems(items, text[..j]) && (end ==> j == |text|)
  }

  lemma PrefixAt(items: seq<Item>, end: bool, text: string, j: nat)
    requires j <= |text| && InItems(items, text[..j]) && (end ==> j == |text|)
    ensures Prefix(items, end, text)
  {
  }

  /** An item first, then the rest. */
  lemma PrefixSplit(x: Item, items: seq<Item>, end: bool, text: string) returns (k: nat)
    requires Prefix([x] + items, end, text)
    ensures k <= |text| && InItem(x, text[..k]) && Prefix(items, end, text[k..])
  {
    hide InItem;
    var all := [x] + items;
    assert all[1..] == items;
    var j :| 0 <= j <= |text| && InItems(all, text[..j]) && (end ==> j == |text|);
    var s := text[..j];
    k :| 0 <= k <= |s| && InItem(x, s[..k]) && InItems(items, s[k..]);
    assert s[..k] == text[..k] && s[k..] == text[k..][..j - k];
    PrefixAt(items, end, text[k..], j - k);
  }

  lemma PrefixJoin(x: Item, items: seq<Item>, end: bool, text: string, k: nat)
    requires k <= |text| && InItem(x, text[..k]) && Prefix(items, end, text[k..])
    ensures Prefix([x] + items, end, text)
  {
    hide InItem;
    var all := [x] + items;
    assert all[1..] == items;
    var j :| 0 <= j <= |text[k..]| && InItems(items, text[k..][..j]) && (end ==> j == |text[k..]|);
    var s := text[..k + j];
    assert s[..k] == text[..k] && s[k..] == text[k..][..j];
    assert InItems(all, s);
    PrefixAt(all, end, text, k + j);
  }

  lemma PrefixNone(end: bool, text: string)
    ensures Prefix([], end, text) <==> !end || text == ""
  {
    if !end || text == "" { PrefixAt([], end, text, 0); }
  }

  /** matchhere finds a prefix exactly when there is one. */
  lemma {:induction false} HereCorrect(re: string, text: string)
    ensures MatchHere(re, text) <==> Prefix(Body(re).0, Body(re).1, text)
    decreases |re|, |text|, 0
  {
    hide Prefix;
    if re == "" {
      PrefixNone(false, text);
    } else if |re| >= 2 && re[1] == '*' {
      StarCorrect(re[0], re[2..], text);
    } else if re == "$" {
      PrefixNone(true, text);
    } else {
      var items, end := Body(re[1..]).0, Body(re[1..]).1;
      if MatchHere(re, text) {
        HereCorrect(re[1..], text[1..]);
        assert text[..1][0] == text[0];
        PrefixJoin(One(re[0]), items, end, text, 1);
      }
      if Prefix(Body(re).0, end, text) {
        var k := PrefixSplit(One(re[0]), items, end, text);
        assert text[..k][0] == text[0];
        HereCorrect(re[1..], text[1..]);
      }
    }
  }

  /** matchstar tries every number of repetitions that the text allows. */
  lemma {:induction false} StarCorrect(c: char, re: string, text: string)
    ensures MatchStar(c, re, text) <==> Prefix([Star(c)] + Body(re).0, Body(re).1, text)
    decreases |re|, |text|, 1
  {
    hide Prefix, MatchHere;
    var items, end := Body(re).0, Body(re).1;
    HereCorrect(re, text);
    assert text[0..] == text;
    if MatchHere(re, text) {
      PrefixJoin(Star(c), items, end, text, 0);
    }
    if text != "" {
      StarCorrect(c, re, text[1..]);
      if Fits(c, text[0]) && MatchStar(c, re, text[1..]) {
        var k := PrefixSplit(Star(c), items, end, text[1..]);
        OneMore(c, text, k);
        assert text[1..][k..] == text[k + 1..];
        PrefixJoin(Star(c), items, end, text, k + 1);
      }
    }
    if Prefix([Star(c)] + items, end, text) && !MatchHere(re, text) {
      var k := PrefixSplit(Star(c), items, end, text);
      OneLess(c, text, k);
      assert text[1..][k - 1..] == text[k..];
      PrefixJoin(Star(c), items, end, text[1..], k - 1);
    }
  }

  lemma OneMore(c: char, text: string, k: nat)
    requires k < |text| && Fits(c, text[0]) && InItem(Star(c), text[1..][..k])
    ensures InItem(Star(c), text[..k + 1])
  {
    var s, r := text[..k + 1], text[1..][..k];
    forall j | 0 <= j < |s| ensures Fits(c, s[j]) {
      if j > 0 { assert r[j - 1] == s[j]; }
    }
  }

  lemma OneLess(c: char, text: string, k: nat)
    requires 0 < k <= |text| && InItem(Star(c), text[..k])
    ensures Fits(c, text[0]) && InItem(Star(c), text[1..][..k - 1])
  {
    assert text[..k][0] == text[0];
    var s, r := text[1..][..k - 1], text[..k];
    forall j | 0 <= j < |s| ensures Fits(c, s[j]) {
      assert r[j + 1] == s[j];
    }
  }

  lemma {:induction false} FromCorrect(re: string, text: string)
    ensures MatchFrom(re, text) <==> exists i :: 0 <= i <= |text| && MatchHere(re, text[i..])
    decreases |text|
  {
    hide MatchHere;
    assert text[0..] == text;
    if text != "" {
      FromCorrect(re, text[1..]);
      if i :| 0 <= i <= |text[1..]| && MatchHere(re, text[1..][i..]) {
        assert text[1..][i..] == text[i + 1..];
      }
      if i :| 0 < i <= |text| && MatchHere(re, text[i..]) {
        assert text[1..][i - 1..] == text[i..];
      }
    }
  }

  lemma PrefixIsSlice(p: Pattern, text: string, i: nat)
    requires i <= |text| && (p.start ==> i == 0) && Prefix(p.items, p.end, text[i..])
    ensures Denotes(p, text)
  {
    var j :| 0 <= j <= |text[i..]| && InItems(p.items, text[i..][..j]) && (p.end ==> j == |text[i..]|);
    assert text[i..][..j] == text[i..i + j];
  }

  lemma SliceIsPrefix(p: Pattern, text: string, i: nat, j: nat)
    requires i <= j <= |text| && InItems(p.items, text[i..j]) && (p.end ==> j == |text|)
    ensures Prefix(p.items, p.end, text[i..])
  {
    assert text[i..][..j - i] == text[i..j];
    PrefixAt(p.items, p.end, text[i..], j - i);
  }

  /** match says yes exactly when the text has a substring in the pattern's language,
      at its start or end if the pattern is anchored there. */
  lemma MatchCorrect(re: string, text: string)
    ensures Match(re, text) <==> Denotes(Parsed(re), text)
  {
    hide Prefix, InItems, MatchHere, MatchFrom, Body;
    var p := Parsed(re);
    var body := if p.start then re[1..] else re;
    forall i | 0 <= i <= |text| ensures MatchHere(body, text[i..]) <==> Prefix(p.items, p.end, text[i..]) {
      HereCorrect(body, text[i..]);
    }
    assert text[0..] == text;
    FromCorrect(re, text);
    if Match(re, text) {
      var i :| 0 <= i <= |text| && MatchHere(body, text[i..]) && (p.start ==> i == 0);
      PrefixIsSlice(p, text, i);
    }
    if Denotes(p, text) {
      var i, j :| 0 <= i <= j <= |text| && InItems(p.items, text[i..j])
                  && (p.start ==> i == 0) && (p.end ==> j == |text|);
      SliceIsPrefix(p, text, i, j);
    }
  }

  // ---- The code ----

  method DoMatch(re: string, text0: string) returns (found: bool)
    ensures found == Match(re, text0)
  {
    hide MatchHere;
    if re != "" && re[0] == '^' {
      found := DoMatchHere(re[1..], text0);
      return;
    }
    var text := text0;
    while true
      invariant MatchFrom(re, text) == MatchFrom(re, text0)
      decreases |text|
    {
      var here := DoMatchHere(re, text);
      if here { return true; }
      if text == "" { return false; }
      text := text[1..];
    }
  }

  method DoMatchHere(re: string, text: string) returns (found: bool)
    ensures found == MatchHere(re, text)
    decreases |re|, |text|, 0
  {
    if re == "" { return true; }
    if |re| >= 2 && re[1] == '*' {
      found := DoMatchStar(re[0], re[2..], text);
      return;
    }
    if re == "$" { return text == ""; }
    if text != "" && (re[0] == '.' || re[0] == text[0]) {
      found := DoMatchHere(re[1..], text[1..]);
      return;
    }
    return false;
  }

  method DoMatchStar(c: char, re: string, text0: string) returns (found: bool)
    ensures found == MatchStar(c, re, text0)
    decreases |re|, |text0|, 1
  {
    hide MatchHere;
    var text := text0;
    while true
      invariant |text| <= |text0| && MatchStar(c, re, text) == MatchStar(c, re, text0)
      decreases |text|
    {
      var here := DoMatchHere(re, text);
      if here { return true; }
      if text == "" || !(text[0] == c || c == '.') { return false; }
      text := text[1..];
    }
  }
}
