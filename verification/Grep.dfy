/** The regular-expression matcher of grep.c, which the source takes from chapter 9 of The Practice
    of Programming by Kernighan and Pike.  A pointer into a string is the rest of that string. */
module Grep {

  // ---------------------------------------------------------------- what an expression means

  /** One character, any number of them, or the end of the text. */
  datatype Item = One(c: char) | Many(c: char) | Eol

  function Items(re: string): (items: seq<Item>)
    decreases |re|
  {
    if re == "" then []
    else if |re| > 1 && re[1] == '*' then [Many(re[0])] + Items(re[2..])
    else if re == "$" then [Eol]
    else [One(re[0])] + Items(re[1..])
  }

  /** How an item is written. */
  function Written(item: Item): (s: string)
    ensures s != ""
  {
    match item
    case One(c) => [c]
    case Many(c) => [c, '*']
    case Eol => "$"
  }

  function Spelled(items: seq<Item>): (s: string) {
    if items == [] then "" else Written(items[0]) + Spelled(items[1..])
  }

  /** Items that can be told apart when written one after the other: a lone character is not followed
      by a star, and is no dollar sign at the end, where that means the end of the text. */
  ghost predicate Plain(items: seq<Item>) {
    forall i :: 0 <= i < |items| ==>
      && (items[i].One? && i + 1 < |items| ==> Written(items[i + 1])[0] != '*')
      && (items[i] == One('$') ==> i + 1 < |items|) && (items[i].Eol? ==> i + 1 == |items|)
  }

  /** Every expression is its items, written one after the other. */
  lemma {:induction false} SpellsItems(re: string)
    ensures Spelled(Items(re)) == re
    decreases |re|
  {
    if re == "" {
    } else if |re| > 1 && re[1] == '*' {
      SpellsItems(re[2..]);
      assert Items(re)[1..] == Items(re[2..]);
      assert re == [re[0], '*'] + re[2..];
    } else if re == "$" {
      assert Items(re)[1..] == [];
      assert Spelled([]) == "";
    } else {
      SpellsItems(re[1..]);
      assert Items(re)[1..] == Items(re[1..]);
      assert re == [re[0]] + re[1..];
    }
  }

  /** Items that can be told apart are the items of the expression they make. */
  lemma {:induction false} ItemsSpelled(items: seq<Item>)
    requires Plain(items)
    ensures Items(Spelled(items)) == items
    decreases |items|
  {
    if items != [] {
      var rest := items[1..];
      assert forall i :: 0 <= i < |rest| ==> rest[i] == items[i + 1];
      assert Plain(rest);
      ItemsSpelled(rest);
      var s, t := Spelled(items), Spelled(rest);
      assert rest != [] ==> t != "" && t[0] == Written(rest[0])[0];
      match items[0] {
        case One(c) => assert s[1..] == t && (|s| > 1 ==> s[1] == t[0]);
        case Many(c) => assert s[2..] == t;
        case Eol => assert rest == [] && s == "$";
      }
      assert items == [items[0]] + rest;
    }
  }

  predicate Fits(c: char, x: char) {
    c == '.' || c == x
  }

  ghost predicate AllFit(c: char, s: string) {
    forall i :: 0 <= i < |s| ==> c == '.' || c == s[i]
  }

  /** An item stands for a piece of text, with `rest` after it. */
  ghost predicate StandsFor(item: Item, piece: string, rest: string) {
    match item
    case One(c) => |piece| == 1 && (c == '.' || c == piece[0])
    case Many(c) => AllFit(c, piece)
    case Eol => piece == "" && rest == ""
  }

  function Join(pieces: seq<string>): (s: string) {
    if pieces == [] then "" else pieces[0] + Join(pieces[1..])
  }

  /** The pieces, one for each item, in order, are what the text begins with. */
  ghost predicate Splits(items: seq<Item>, pieces: seq<string>, rest: string) {
    && |pieces| == |items|
    && forall i :: 0 <= i < |items| ==> StandsFor(items[i], pieces[i], Join(pieces[i + 1..]) + rest)
  }

  /** The expression matches the text from its beginning on. */
  ghost predicate MatchesHere(re: string, text: string) {
    exists pieces, rest :: Splits(Items(re), pieces, rest) && text == Join(pieces) + rest
  }

  /** The expression matches somewhere; `^` ties it to the beginning. */
  ghost predicate Matches(re: string, text: string) {
    if re != "" && re[0] == '^' then MatchesHere(re[1..], text)
    else exists k: nat :: k <= |text| && MatchesAt(re, text, k)
  }

  ghost predicate MatchesAt(re: string, text: string, k: nat)
    requires k <= |text|
  {
    MatchesHere(re, text[k..])
  }

  // ---------------------------------------------------------------- the same, item by item

  ghost predicate Here(items: seq<Item>, text: string)
    decreases |items|
  {
    if items == [] then true
    else
      match items[0]
      case One(c) => text != "" && Fits(c, text[0]) && Here(items[1..], text[1..])
      case Many(c) => exists k: nat :: k <= |text| && AllFit(c, text[..k]) && Here(items[1..], text[k..])
      case Eol => text == "" && Here(items[1..], text)
  }

  /** The first piece and the others. */
  lemma SplitsCons(items: seq<Item>, p: string, pieces: seq<string>, rest: string)
    requires items != []
    ensures Splits(items, [p] + pieces, rest) <==>
              StandsFor(items[0], p, Join(pieces) + rest) && Splits(items[1..], pieces, rest)
    ensures Join([p] + pieces) == p + Join(pieces)
  {
    var all := [p] + pieces;
    assert all[1..] == pieces;
    forall i | 0 <= i < |pieces|
      ensures all[i + 2..] == pieces[i + 1..] && all[i + 1] == pieces[i]
    {
    }
    if Splits(items, all, rest) {
      forall i | 0 <= i < |items[1..]|
        ensures StandsFor(items[1..][i], pieces[i], Join(pieces[i + 1..]) + rest)
      {
        assert StandsFor(items[i + 1], all[i + 1], Join(all[i + 1 + 1..]) + rest);
      }
    }
    if StandsFor(items[0], p, Join(pieces) + rest) && Splits(items[1..], pieces, rest) {
      forall i | 0 <= i < |items|
        ensures StandsFor(items[i], all[i], Join(all[i + 1..]) + rest)
      {
        if i > 0 { assert StandsFor(items[1..][i - 1], pieces[i - 1], Join(pieces[i - 1 + 1..]) + rest); }
      }
    }
  }

  /** How many characters the first item takes in a match. */
  ghost predicate Takes(items: seq<Item>, text: string, k: nat)
    requires items != [] && k <= |text|
  {
    StandsFor(items[0], text[..k], text[k..]) && Here(items[1..], text[k..])
  }

  lemma HereIff(items: seq<Item>, text: string)
    requires items != []
    ensures Here(items, text) <==> exists k: nat :: k <= |text| && Takes(items, text, k)
  {
    match items[0] {
      case One(c) =>
        if Here(items, text) { assert Takes(items, text, 1); }
      case Many(c) =>
        if Here(items, text) {
          var k: nat :| k <= |text| && AllFit(c, text[..k]) && Here(items[1..], text[k..]);
          assert Takes(items, text, k);
        }
      case Eol =>
        if Here(items, text) {
          assert text[0..] == text;
          assert Takes(items, text, 0);
        }
        if exists k: nat :: k <= |text| && Takes(items, text, k) {
          var k: nat :| k <= |text| && Takes(items, text, k);
          assert text[k..] == text;
        }
    }
  }

  /** A match item by item gives the pieces. */
  lemma {:induction false} HereSplits(items: seq<Item>, text: string) returns (pieces: seq<string>, rest: string)
    requires Here(items, text)
    ensures Splits(items, pieces, rest) && text == Join(pieces) + rest
    decreases |items|
  {
    hide Here, StandsFor;
    if items == [] {
      return [], text;
    }
    HereIff(items, text);
    var k: nat :| k <= |text| && Takes(items, text, k);
    pieces, rest := HereSplits(items[1..], text[k..]);
    SplitsCons(items, text[..k], pieces, rest);
    assert text == text[..k] + text[k..];
    assert text[..k] + (Join(pieces) + rest) == (text[..k] + Join(pieces)) + rest;
    pieces := [text[..k]] + pieces;
  }

  /** Pieces give a match item by item. */
  lemma {:induction false} SplitsHere(items: seq<Item>, pieces: seq<string>, rest: string)
    requires Splits(items, pieces, rest)
    ensures Here(items, Join(pieces) + rest)
    decreases |items|
  {
    if items != [] {
      assert pieces == [pieces[0]] + pieces[1..];
      SplitsCons(items, pieces[0], pieces[1..], rest);
      SplitsHere(items[1..], pieces[1..], rest);
      var text, k := Join(pieces) + rest, |pieces[0]|;
      assert text[..k] == pieces[0] && text[k..] == Join(pieces[1..]) + rest;
      assert Takes(items, text, k);
      HereIff(items, text);
    }
  }

  /** A split exists exactly when the items match one after the other. */
  lemma HereMeans(re: string, text: string)
    ensures Here(Items(re), text) <==> MatchesHere(re, text)
  {
    if Here(Items(re), text) {
      var pieces, rest := HereSplits(Items(re), text);
    }
    if MatchesHere(re, text) {
      var pieces, rest :| Splits(Items(re), pieces, rest) && text == Join(pieces) + rest;
      SplitsHere(Items(re), pieces, rest);
    }
  }

  // ---------------------------------------------------------------- the code

  /** `matchhere`. */
  method MatchHere(re: string, text: string) returns (r: bool)
    ensures r <==> MatchesHere(re, text)
    decreases |re|, 0
  {
    HereMeans(re, text);
    if re == "" {
      return true;
    }
    if |re| > 1 && re[1] == '*' {
      StarIs(re, text);
      r := MatchStar(re[0], re[2..], text);
      return;
    }
    if re[0] == '$' && |re| == 1 {
      assert Items(re)[1..] == [];
      return text == "";
    }
    if text != "" && (re[0] == '.' || re[0] == text[0]) {
      assert Items(re)[1..] == Items(re[1..]);
      HereMeans(re[1..], text[1..]);
      r := MatchHere(re[1..], text[1..]);
      return;
    }
    return false;
  }

  /** Some number of characters that fit `c` is followed by a match. */
  ghost predicate StarMatches(c: char, re: string, text: string) {
    exists k: nat :: k <= |text| && StarAt(c, re, text, k)
  }

  ghost predicate StarAt(c: char, re: string, text: string, k: nat)
    requires k <= |text|
  {
    AllFit(c, text[..k]) && MatchesHere(re, text[k..])
  }

  lemma StarIs(re: string, text: string)
    requires |re| > 1 && re[1] == '*'
    ensures Here(Items(re), text) <==> StarMatches(re[0], re[2..], text)
  {
    var items := Items(re);
    assert items[1..] == Items(re[2..]);
    forall k: nat | k <= |text|
      ensures AllFit(re[0], text[..k]) && Here(items[1..], text[k..]) <==> StarAt(re[0], re[2..], text, k)
    {
      HereMeans(re[2..], text[k..]);
    }
  }

  /** `matchstar`. */
  method MatchStar(c: char, re: string, text: string) returns (r: bool)
    ensures r <==> StarMatches(c, re, text)
    decreases |re|, 1
  {
    var t := text;
    ghost var k: nat := 0;
    while true
      invariant k <= |text| && t == text[k..] && (forall i :: 0 <= i < k ==> Fits(c, text[i]))
      invariant forall j: nat :: j < k ==> !StarAt(c, re, text, j)
      decreases |t|
    {
      r := MatchHere(re, t);
      if r {
        assert StarAt(c, re, text, k);
        return;
      }
      if t == "" || !(t[0] == c || c == '.') {
        forall j: nat | j <= |text|
          ensures !StarAt(c, re, text, j)
        {
          assert j > k ==> text[..j][k] == text[k] && !Fits(c, text[k]);
        }
        return;
      }
      t := t[1..];
      k := k + 1;
    }
  }

  /** `match`: true exactly when the expression matches somewhere in the text. */
  method Match(re: string, text: string) returns (r: bool)
    ensures r <==> Matches(re, text)
  {
    if re != "" && re[0] == '^' {
      r := MatchHere(re[1..], text);
      return;
    }
    var t := text;
    ghost var k: nat := 0;
    while true
      invariant k <= |text| && t == text[k..] && forall j: nat :: j < k ==> !MatchesAt(re, text, j)
      decreases |t|
    {
      r := MatchHere(re, t);
      if r {
        assert MatchesAt(re, text, k);
        return;
      }
      if t == "" {
        return;
      }
      t := t[1..];
      k := k + 1;
    }
  }
}
