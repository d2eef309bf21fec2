/** The regular expression matcher of usr/grep.c. Strings are sequences of characters without their terminator. */
module Grep {
  /** What the pattern stands for: a character, any run of one, or the end of the text. `.` is any character. */
  datatype Item = One(c: char) | Star(c: char) | Eol

  predicate Fits(c: char, x: char) { c == '.' || c == x }

  predicate AllFit(c: char, s: string) { forall i :: 0 <= i < |s| ==> Fits(c, s[i]) }

  /** The items of a pattern: a character before `*` repeats, a last `$` is the end of the text, anything else stands
      for itself. */
  function Items(re: string): seq<Item> {
    if re == "" then []
    else if |re| >= 2 && re[1] == '*' then [Star(re[0])] + Items(re[2..])
    else if re == "$" then [Eol]
    else [One(re[0])] + Items(re[1..])
  }

  function Shown(items: seq<Item>): string {
    if items == [] then ""
    else
      var head := match items[0] case One(c) => [c] case Star(c) => [c, '*'] case Eol => "$";
      head + Shown(items[1..])
  }

  /** Reading a pattern as items loses nothing of it. */
  lemma {:induction false} ItemsShown(re: string)
    ensures Shown(Items(re)) == re
    decreases |re|
  {
    if re == "" {
    } else if |re| >= 2 && re[1] == '*' {
      ItemsShown(re[2..]);
      assert Items(re)[1..] == Items(re[2..]);
      assert re == [re[0], '*'] + re[2..];
    } else if re != "$" {
      ItemsShown(re[1..]);
      assert Items(re)[1..] == Items(re[1..]);
    }
  }

  // ---------- the meaning ----------

  predicate PieceOf(item: Item, piece: string) {
    match item
    case One(c) => |piece| == 1 && Fits(c, piece[0])
    case Star(c) => AllFit(c, piece)
    case Eol => piece == ""
  }

  function Glued(pieces: seq<string>): string {
    if pieces == [] then "" else pieces[0] + Glued(pieces[1..])
  }

  predicate ToEnd(items: seq<Item>) { items != [] && items[|items| - 1].Eol? }

  /** `pieces` cuts a beginning of the text, or all of it, into one piece per item. */
  ghost predicate Cuts(items: seq<Item>, pieces: seq<string>, text: string) {
    && |pieces| == |items|
    && (forall k :: 0 <= k < |items| ==> PieceOf(items[k], pieces[k]))
    && Glued(pieces) <= text
    && (ToEnd(items) ==> Glued(pieces) == text)
  }

  /** Some such cut exists. */
  ghost predicate Begins(items: seq<Item>, text: string) {
    exists pieces :: Cuts(items, pieces, text)
  }

  lemma BeginsNone(text: string)
    ensures Begins([], text)
  {
    assert Cuts([], [], text);
  }

  lemma BeginsEol(text: string)
    ensures Begins([Eol], text) <==> text == ""
  {
    if Begins([Eol], text) {
      var pieces :| Cuts([Eol], pieces, text);
      assert PieceOf(Eol, pieces[0]);
      assert pieces == [""];
    }
    if text == "" {
      assert Cuts([Eol], [""], text);
    }
  }

  /** The first piece may be any beginning of the text that its item accepts, the rest must go on from there. */
  lemma BeginsSplit(item: Item, rest: seq<Item>, text: string)
    requires !item.Eol? || rest != []
    ensures Begins([item] + rest, text) <==>
            exists k :: 0 <= k <= |text| && PieceOf(item, text[..k]) && Begins(rest, text[k..])
  {
    if Begins([item] + rest, text) {
      var pieces :| Cuts([item] + rest, pieces, text);
      var k := |pieces[0]|;
      HeadPiece(item, rest, pieces, text);
      assert PieceOf(item, text[..k]) && Begins(rest, text[k..]);
    }
    if k :| 0 <= k <= |text| && PieceOf(item, text[..k]) && Begins(rest, text[k..]) {
      var pieces :| Cuts(rest, pieces, text[k..]);
      AddPiece(item, rest, pieces, text, k);
    }
  }

  lemma HeadPiece(item: Item, rest: seq<Item>, pieces: seq<string>, text: string)
    requires Cuts([item] + rest, pieces, text) && (!item.Eol? || rest != [])
    ensures |pieces[0]| <= |text| && PieceOf(item, text[..|pieces[0]|]) && Cuts(rest, pieces[1..], text[|pieces[0]|..])
  {
    var all, k := [item] + rest, |pieces[0]|;
    assert Glued(pieces) == pieces[0] + Glued(pieces[1..]);
    assert text[..k] == pieces[0];
    assert PieceOf(all[0], pieces[0]);
    forall i | 0 <= i < |rest|
      ensures PieceOf(rest[i], pieces[1..][i])
    {
      assert PieceOf(all[i + 1], pieces[i + 1]);
    }
  }

  lemma AddPiece(item: Item, rest: seq<Item>, pieces: seq<string>, text: string, k: nat)
    requires k <= |text| && PieceOf(item, text[..k]) && Cuts(rest, pieces, text[k..]) && (!item.Eol? || rest != [])
    ensures Cuts([item] + rest, [text[..k]] + pieces, text)
  {
    var all, more := [item] + rest, [text[..k]] + pieces;
    assert more[1..] == pieces;
    assert Glued(more) == text[..k] + Glued(pieces);
    assert text == text[..k] + text[k..];
  }

  lemma BeginsOne(c: char, rest: seq<Item>, text: string)
    ensures Begins([One(c)] + rest, text) <==> text != "" && Fits(c, text[0]) && Begins(rest, text[1..])
  {
    BeginsSplit(One(c), rest, text);
    if text != "" {
      assert text[..1] == [text[0]];
    }
  }

  lemma BeginsStar(c: char, rest: seq<Item>, text: string)
    ensures Begins([Star(c)] + rest, text) <==>
            exists k :: 0 <= k <= |text| && AllFit(c, text[..k]) && Begins(rest, text[k..])
  {
    BeginsSplit(Star(c), rest, text);
    forall k | 0 <= k <= |text|
      ensures PieceOf(Star(c), text[..k]) <==> AllFit(c, text[..k])
    {
    }
  }

  // ---------- the code ----------

  /** matchhere: some prefix of `text` matches. */
  method MatchHere(re: string, text: string) returns (yes: bool)
    ensures yes <==> Begins(Items(re), text)
    decreases |re|, 0
  {
    if re == "" {
      BeginsNone(text);
      return true;
    }
    if |re| >= 2 && re[1] == '*' {
      BeginsStar(re[0], Items(re[2..]), text);
      yes := MatchStar(re[0], re[2..], text);
      return;
    }
    if re == "$" {
      BeginsEol(text);
      return text == "";
    }
    BeginsOne(re[0], Items(re[1..]), text);
    if text != "" && (re[0] == '.' || re[0] == text[0]) {
      yes := MatchHere(re[1..], text[1..]);
      return;
    }
    return false;
  }

  /** matchstar: some number of `c` and then a match of `re`. */
  method MatchStar(c: char, re: string, text: string) returns (yes: bool)
    ensures yes <==> exists k :: 0 <= k <= |text| && AllFit(c, text[..k]) && Begins(Items(re), text[k..])
    decreases |re|, 1
  {
    var i := 0;
    while true
      invariant 0 <= i <= |text| && AllFit(c, text[..i])
      invariant forall k :: 0 <= k < i ==> !Begins(Items(re), text[k..])
      decreases |text| - i
    {
      var here := MatchHere(re, text[i..]);
      if here {
        return true;
      }
      if i == |text| || !(text[i] == c || c == '.') {
        forall k | i < k <= |text|
          ensures !AllFit(c, text[..k])
        {
          assert !Fits(c, text[..k][i]);
        }
        return false;
      }
      i := i + 1;
    }
  }

  /** Search for `re` anywhere in `text`, or only at its beginning after `^`. */
  method Match(re: string, text: string) returns (yes: bool)
    ensures yes <==>
            if re != "" && re[0] == '^' then Begins(Items(re[1..]), text)
            else exists k :: 0 <= k <= |text| && Begins(Items(re), text[k..])
  {
    if re != "" && re[0] == '^' {
      yes := MatchHere(re[1..], text);
      return;
    }
    var i := 0;
    while true
      invariant 0 <= i <= |text|
      invariant forall k :: 0 <= k < i ==> !Begins(Items(re), text[k..])
      decreases |text| - i
    {
      var here := MatchHere(re, text[i..]);
      if here {
        return true;
      }
      if i == |text| {
        return false;
      }
      i := i + 1;
    }
  }
}
