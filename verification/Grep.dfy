/**
 The regular-expression matcher of user/grep.c against a declarative meaning.

 A pattern denotes a set of strings: each item of the pattern matches one piece of the
 string, and the pieces in order make up the whole string. The matcher works on
 NUL-terminated strings through indices, as the source does through pointers.
 */
module Grep {
  const NUL := '\0'

  predicate IsCString(s: seq<char>) {
    && 0 < |s|
    && s[|s| - 1] == NUL
    && forall i :: 0 <= i < |s| - 1 ==> s[i] != NUL
  }

  /** The characters from index `i` up to, not including, the terminating NUL. */
  function Rest(s: seq<char>, i: nat): string
    requires IsCString(s) && i < |s|
  {
    s[i..|s| - 1]
  }

  datatype Item = One(c: char) | Star(c: char)

  datatype Pattern = Pattern(items: seq<Item>, atStart: bool, atEnd: bool)

  function ParseItems(re: string): Pattern {
    if re == [] then Pattern([], false, false)
    else if |re| >= 2 && re[1] == '*' then
      var p := ParseItems(re[2..]);
      p.(items := [Star(re[0])] + p.items)
    else if re == "$" then Pattern([], false, true)
    else
      var p := ParseItems(re[1..]);
      p.(items := [One(re[0])] + p.items)
  }

  function Parse(re: string): Pattern {
    if re != [] && re[0] == '^' then ParseItems(re[1..]).(atStart := true) else ParseItems(re)
  }

  predicate CharMatches(c: char, x: char) {
    c == '.' || c == x
  }

  predicate ItemMatches(item: Item, piece: string) {
    match item
    case One(c) => |piece| == 1 && CharMatches(c, piece[0])
    case Star(c) => forall i :: 0 <= i < |piece| ==> CharMatches(c, piece[i])
  }

  function Concat(pieces: seq<string>): string {
    if pieces == [] then [] else pieces[0] + Concat(pieces[1..])
  }

  ghost predicate Splits(items: seq<Item>, pieces: seq<string>, s: string) {
    && |pieces| == |items|
    && Concat(pieces) == s
    && forall k :: 0 <= k < |items| ==> ItemMatches(items[k], pieces[k])
  }

  /** `s` is in the language of the items. */
  ghost predicate Denotes(items: seq<Item>, s: string) {
    exists pieces :: Splits(items, pieces, s)
  }

  /** Some prefix of `t` (all of it when the pattern ends in `$`) is in the language. */
  ghost predicate Here(p: Pattern, t: string) {
    exists j :: 0 <= j <= |t| && (p.atEnd ==> j == |t|) && Denotes(p.items, t[..j])
  }

  /** The declarative meaning of a search: some substring of `text` is in the language. */
  ghost predicate Occurs(p: Pattern, text: string) {
    exists i, j ::
      && 0 <= i <= j <= |text|
      && (p.atStart ==> i == 0)
      && (p.atEnd ==> j == |text|)
      && Denotes(p.items, text[i..j])
  }

  lemma HereNil(p: Pattern, t: string)
    requires p.items == []
    ensures Here(p, t) <==> (p.atEnd ==> t == [])
  {
    assert Splits([], [], []);
    if p.atEnd ==> t == [] {
      assert t[..0] == [];
      assert Denotes(p.items, t[..0]);
    }
  }

  lemma DenotesCons(item: Item, rest: seq<Item>, s: string, k: nat)
    requires k <= |s| && ItemMatches(item, s[..k]) && Denotes(rest, s[k..])
    ensures Denotes([item] + rest, s)
  {
    var pieces :| Splits(rest, pieces, s[k..]);
    var all := [s[..k]] + pieces;
    assert all[1..] == pieces;
    assert Concat(all) == s[..k] + s[k..] == s;
    assert Splits([item] + rest, all, s);
  }

  lemma DenotesUncons(item: Item, rest: seq<Item>, s: string) returns (k: nat)
    requires Denotes([item] + rest, s)
    ensures k <= |s| && ItemMatches(item, s[..k]) && Denotes(rest, s[k..])
  {
    var pieces :| Splits([item] + rest, pieces, s);
    k := |pieces[0]|;
    assert s == pieces[0] + Concat(pieces[1..]);
    assert s[..k] == pieces[0] && s[k..] == Concat(pieces[1..]);
    forall i | 0 <= i < |rest| ensures ItemMatches(rest[i], pieces[1..][i]) {
      assert rest[i] == ([item] + rest)[i + 1];
    }
    assert ItemMatches(([item] + rest)[0], pieces[0]);
    assert Splits(rest, pieces[1..], s[k..]);
  }

  /** An item in front: it matches some prefix and the rest matches at what follows. */
  lemma HereCons(item: Item, p: Pattern, t: string)
    ensures Here(p.(items := [item] + p.items), t)
       <==> exists k :: 0 <= k <= |t| && ItemMatches(item, t[..k]) && Here(p, t[k..])
  {
    var q := p.(items := [item] + p.items);
    if Here(q, t) {
      var j :| 0 <= j <= |t| && (q.atEnd ==> j == |t|) && Denotes(q.items, t[..j]);
      var k := DenotesUncons(item, p.items, t[..j]);
      assert t[..j][..k] == t[..k] && t[..j][k..] == t[k..][..j - k];
    }
    if k :| 0 <= k <= |t| && ItemMatches(item, t[..k]) && Here(p, t[k..]) {
      var j :| 0 <= j <= |t[k..]| && (p.atEnd ==> j == |t[k..]|) && Denotes(p.items, t[k..][..j]);
      assert t[..k + j][..k] == t[..k] && t[..k + j][k..] == t[k..][..j];
      DenotesCons(item, p.items, t[..k + j], k);
    }
  }

  lemma HereOne(c: char, p: Pattern, t: string)
    ensures Here(p.(items := [One(c)] + p.items), t)
       <==> t != [] && CharMatches(c, t[0]) && Here(p, t[1..])
  {
    HereCons(One(c), p, t);
    if t != [] {
      assert t[..1][0] == t[0];
    }
  }

  lemma {:induction false} OccursIsHere(p: Pattern, text: string)
    requires !p.atStart
    ensures Occurs(p, text) <==> exists i :: 0 <= i <= |text| && Here(p, text[i..])
  {
    if Occurs(p, text) {
      var i, j :| 0 <= i <= j <= |text| && (p.atEnd ==> j == |text|) && Denotes(p.items, text[i..j]);
      assert text[i..][..j - i] == text[i..j];
      assert Here(p, text[i..]);
    }
    if i :| 0 <= i <= |text| && Here(p, text[i..]) {
      var j :| 0 <= j <= |text[i..]| && (p.atEnd ==> j == |text[i..]|) && Denotes(p.items, text[i..][..j]);
      assert text[i..][..j] == text[i..i + j];
    }
  }

  lemma OccursAtStart(p: Pattern, text: string)
    requires p.atStart
    ensures Occurs(p, text) <==> Here(p, text)
  {
    if Occurs(p, text) {
      var i, j :| 0 <= i <= j <= |text| && i == 0 && (p.atEnd ==> j == |text|) && Denotes(p.items, text[i..j]);
      assert text[..j] == text[i..j];
    }
    if Here(p, text) {
      var j :| 0 <= j <= |text| && (p.atEnd ==> j == |text|) && Denotes(p.items, text[..j]);
      assert text[..j] == text[0..j];
    }
  }

  lemma NotAtStart(re: string)
    ensures !ParseItems(re).atStart
  {}

  method Match(re: seq<char>, text: seq<char>) returns (r: bool)
    requires IsCString(re) && IsCString(text)
    ensures r <==> Occurs(Parse(Rest(re, 0)), Rest(text, 0))
  {
    var p := Parse(Rest(re, 0));
    if re[0] == '^' {
      assert Rest(re, 0)[1..] == Rest(re, 1);
      OccursAtStart(p, Rest(text, 0));
      r := MatchHere(re, 1, text, 0);
      return;
    }
    NotAtStart(Rest(re, 0));
    OccursIsHere(p, Rest(text, 0));
    var i := 0;
    while true
      invariant 0 <= i < |text|
      invariant forall k :: 0 <= k < i ==> !Here(p, Rest(text, 0)[k..])
      decreases |text| - i
    {
      assert Rest(text, 0)[i..] == Rest(text, i);
      var m := MatchHere(re, 0, text, i);
      if m {
        return true;
      }
      if text[i] == NUL {
        break;
      }
      i := i + 1;
    }
    return false;
  }

  method MatchHere(re: seq<char>, ri: nat, text: seq<char>, ti: nat) returns (r: bool)
    requires IsCString(re) && ri < |re| && IsCString(text) && ti < |text|
    ensures r <==> Here(ParseItems(Rest(re, ri)), Rest(text, ti))
    decreases |re| - ri, 0
  {
    ghost var e, t := Rest(re, ri), Rest(text, ti);
    if re[ri] == NUL {
      HereNil(ParseItems(e), t);
      return true;
    }
    if re[ri + 1] == '*' {
      assert e[2..] == Rest(re, ri + 2) && e[1] == '*';
      r := MatchStar(re[ri], re, ri + 2, text, ti);
      return;
    }
    if re[ri] == '$' && re[ri + 1] == NUL {
      HereNil(ParseItems(e), t);
      return text[ti] == NUL;
    }
    assert e[1..] == Rest(re, ri + 1);
    assert e != "$";
    HereOne(e[0], ParseItems(e[1..]), t);
    if text[ti] != NUL && (re[ri] == '.' || re[ri] == text[ti]) {
      assert t[1..] == Rest(text, ti + 1);
      r := MatchHere(re, ri + 1, text, ti + 1);
      return;
    }
    return false;
  }

  lemma StarTakes(c: char, t: string, n: nat)
    requires n <= |t| && forall k :: 0 <= k < n ==> CharMatches(c, t[k])
    ensures ItemMatches(Star(c), t[..n])
  {
  }

  /** A starred character takes nothing that reaches past one it does not match. */
  lemma StarStops(c: char, t: string, n: nat)
    requires n < |t| ==> !CharMatches(c, t[n])
    ensures forall k :: n < k <= |t| ==> !ItemMatches(Star(c), t[..k])
  {
    forall k | n < k <= |t| ensures !ItemMatches(Star(c), t[..k]) {
      assert t[..k][n] == t[n];
    }
  }

  method MatchStar(c: char, re: seq<char>, ri: nat, text: seq<char>, ti: nat) returns (r: bool)
    requires IsCString(re) && ri < |re| && IsCString(text) && ti < |text|
    ensures r <==> (var p := ParseItems(Rest(re, ri));
                    Here(p.(items := [Star(c)] + p.items), Rest(text, ti)))
    decreases |re| - ri, 1
  {
    ghost var p, t := ParseItems(Rest(re, ri)), Rest(text, ti);
    HereCons(Star(c), p, t);
    var i := ti;
    while true
      invariant ti <= i < |text|
      invariant forall k :: ti <= k < i ==> CharMatches(c, text[k])
      invariant forall k :: 0 <= k < i - ti ==> !Here(p, t[k..])
      decreases |text| - i
    {
      assert t[i - ti..] == Rest(text, i);
      var m := MatchHere(re, ri, text, i);
      if m {
        forall k | 0 <= k < i - ti ensures CharMatches(c, t[k]) {
          assert t[k] == text[ti + k];
        }
        StarTakes(c, t, i - ti);
        return true;
      }
      if !(text[i] != NUL && (text[i] == c || c == '.')) {
        assert i - ti < |t| ==> t[i - ti] == text[i];
        StarStops(c, t, i - ti);
        break;
      }
      i := i + 1;
    }
    return false;
  }
}
