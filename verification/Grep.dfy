/**
 grep.c's matcher (grep.c:72-106) decides a declarative reading of its patterns: c stands for
 itself, . for any character, c* for a run of c, ^ at the start and $ at the end for the ends.
 */
module Grep {
  import opened Basics

  // ------------------------------------------------------------- meaning

  datatype Item = One(c: char) | Star(c: char) | End

  /** A pattern, after any leading ^, as a sequence of items. */
  function Parse(re: Text): seq<Item>
    decreases |re|
  {
    if re == "" then []
    else if |re| > 1 && re[1] == '*' then [Star(re[0])] + Parse(re[2..])
    else if re == "$" then [End]
    else [One(re[0])] + Parse(re[1..])
  }

  predicate Stands(c: char, x: char) {
    c == '.' || c == x
  }

  /** The piece of text that one item stands for; `after` is what follows it. */
  ghost predicate Fits(item: Item, piece: string, after: string) {
    match item
    case One(c) => |piece| == 1 && Stands(c, piece[0])
    case Star(c) => forall i :: 0 <= i < |piece| ==> Stands(c, piece[i])
    case End => piece == "" && after == ""
  }

  /** The text is cut into one piece for each item, and a rest. */
  ghost predicate Decomposes(items: seq<Item>, pieces: seq<string>, text: string)
    decreases |items|
  {
    if items == [] then pieces == []
    else
      && pieces != [] && pieces[0] <= text
      && Fits(items[0], pieces[0], text[|pieces[0]|..])
      && Decomposes(items[1..], pieces[1..], text[|pieces[0]|..])
  }

  /** Some prefix of the text matches. */
  ghost predicate MatchesHere(items: seq<Item>, text: string) {
    exists pieces :: Decomposes(items, pieces, text)
  }

  /** Some part of the text matches; with ^, one that starts it. */
  ghost predicate Matches(re: Text, text: Text) {
    if re != "" && re[0] == '^' then MatchesHere(Parse(re[1..]), text)
    else exists k: nat :: k <= |text| && MatchesHere(Parse(re), text[k..])
  }

  // ------------------------------------------------- the meaning unfolded

  lemma HereEmpty(text: string)
    ensures MatchesHere([], text)
  {
    assert Decomposes([], [], text);
  }

  /** An item fits some piece, and the other items match what follows it. */
  lemma HereFirst(item: Item, items: seq<Item>, text: string)
    ensures MatchesHere([item] + items, text) <==>
            exists k: nat :: k <= |text| && Fits(item, text[..k], text[k..]) && MatchesHere(items, text[k..])
  {
    var all := [item] + items;
    assert all[1..] == items;
    if MatchesHere(all, text) {
      var pieces :| Decomposes(all, pieces, text);
      var k := |pieces[0]|;
      assert text[..k] == pieces[0];
      assert Decomposes(items, pieces[1..], text[k..]);
    }
    if k: nat :| k <= |text| && Fits(item, text[..k], text[k..]) && MatchesHere(items, text[k..]) {
      var pieces :| Decomposes(items, pieces, text[k..]);
      assert ([text[..k]] + pieces)[1..] == pieces;
      assert Decomposes(all, [text[..k]] + pieces, text);
    }
  }

  lemma HereOne(c: char, items: seq<Item>, text: string)
    ensures MatchesHere([One(c)] + items, text) <==> text != "" && Stands(c, text[0]) && MatchesHere(items, text[1..])
  {
    HereFirst(One(c), items, text);
    if text != "" && Stands(c, text[0]) && MatchesHere(items, text[1..]) {
      assert Fits(One(c), text[..1], text[1..]);
    }
  }

  lemma HereEnd(text: string)
    ensures MatchesHere([End], text) <==> text == ""
  {
    HereFirst(End, [], text);
    assert [End] + [] == [End];
    if text == "" {
      HereEmpty(text[0..]);
      assert Fits(End, text[..0], text[0..]);
    }
  }

  lemma RunStops(c: char, text: string, i: nat)
    requires i <= |text| && (i < |text| ==> !Stands(c, text[i]))
    ensures forall k: nat :: k <= |text| && Fits(Star(c), text[..k], text[k..]) ==> k <= i
  {
    assert forall k: nat :: i < k <= |text| ==> text[..k][i] == text[i];
  }

  // ------------------------------------------------------------- the code

  method Matchhere(re: Text, text: Text) returns (b: bool)
    ensures b <==> MatchesHere(Parse(re), text)
    decreases |re|, 0, |text|
  {
    hide Decomposes, MatchesHere;
    if re == "" {
      HereEmpty(text);
      return true;
    }
    if |re| > 1 && re[1] == '*' {
      b := Matchstar(re[0], re[2..], text);
      HereFirst(Star(re[0]), Parse(re[2..]), text);
      return;
    }
    if re == "$" {
      HereEnd(text);
      return text == "";
    }
    HereOne(re[0], Parse(re[1..]), text);
    if text != "" && (re[0] == '.' || re[0] == text[0]) {
      b := Matchhere(re[1..], text[1..]);
      return;
    }
    return false;
  }

  /** Some run of c, and then re. */
  method Matchstar(c: char, re: Text, text: Text) returns (b: bool)
    ensures b <==> exists k: nat :: k <= |text| && Fits(Star(c), text[..k], text[k..]) && MatchesHere(Parse(re), text[k..])
    decreases |re|, 1, |text|
  {
    hide Decomposes, MatchesHere, Parse;
    var i := 0;
    while true
      invariant i <= |text| && forall j :: 0 <= j < i ==> Stands(c, text[j])
      invariant forall k: nat :: k < i ==> !MatchesHere(Parse(re), text[k..])
      decreases |text| - i
    {
      b := Matchhere(re, text[i..]);
      if b {
        assert Fits(Star(c), text[..i], text[i..]);
        return;
      }
      if i == |text| || !(text[i] == c || c == '.') {
        RunStops(c, text, i);
        return false;
      }
      i := i + 1;
    }
  }

  method Match(re: Text, text: Text) returns (b: bool)
    ensures b <==> Matches(re, text)
  {
    hide Decomposes, MatchesHere, Parse;
    if re != "" && re[0] == '^' {
      b := Matchhere(re[1..], text);
      return;
    }
    var i := 0;
    while true
      invariant i <= |text| && forall k: nat :: k < i ==> !MatchesHere(Parse(re), text[k..])
      decreases |text| - i
    {
      b := Matchhere(re, text[i..]);
      if b {
        return;
      }
      if i == |text| {
        return false;
      }
      i := i + 1;
    }
  }
}
