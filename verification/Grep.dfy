/** The pattern matcher of `user/grep.c`: literal characters, '.', 'x*', a final '$' and a
    leading '^'.  The matcher is proved to decide a declarative language: a text matches when
    it can be cut into consecutive pieces, one for each item of the pattern. */
module Grep {

  /** A C string, without its terminating NUL. */
  type CString = s: string | '\0' !in s

  /** One item of a pattern. The character '.' stands for any character. */
  datatype Item = Once(c: char) | Star(c: char) | End

  /** How a pattern is read: a star binds to the character before it, whatever that character
      is, and '$' is special only as the last character. */
  function Items(re: CString): (items: seq<Item>) {
    if re == [] then []
    else if |re| > 1 && re[1] == '*' then [Star(re[0])] + Items(re[2..])
    else if re == "$" then [End]
    else [Once(re[0])] + Items(re[1..])
  }

  predicate Accepts(c: char, x: char) {
    c == '.' || c == x
  }

  /** The pieces of text that one item may consume. */
  predicate Consumes(item: Item, piece: string, atEnd: bool) {
    match item
    case Once(c) => |piece| == 1 && Accepts(c, piece[0])
    case Star(c) => forall x | x in piece :: Accepts(c, x)
    case End => piece == [] && atEnd
  }

  /** The item consumes the piece of `text` from `lo` to `hi`. */
  predicate Takes(item: Item, text: string, lo: nat, hi: nat) {
    lo <= hi <= |text| && Consumes(item, text[lo..hi], hi == |text|)
  }

  /** The positions `cuts` divide a prefix of `text` into one piece for each item. */
  ghost predicate Cuts(items: seq<Item>, text: string, cuts: seq<nat>) {
    && |cuts| == |items| + 1
    && cuts[0] == 0
    && forall i | 0 <= i < |items| :: Takes(items[i], text, cuts[i], cuts[i + 1])
  }

  /** Some prefix of `text` is in the language of the pattern. */
  ghost predicate MatchesHere(items: seq<Item>, text: string) {
    exists cuts :: Cuts(items, text, cuts)
  }

  /** What `match` promises: the pattern matches at some suffix of the text, or, when it begins
      with '^', at the start. */
  ghost predicate Matches(re: CString, text: CString) {
    if re != [] && re[0] == '^' then MatchesHere(Items(re[1..]), text)
    else exists i | 0 <= i <= |text| :: MatchesHere(Items(re), text[i..])
  }

  lemma EmptyMatches(text: string)
    ensures MatchesHere([], text)
  {
    assert Cuts([], text, [0]);
  }

  /** A first piece and a match of the rest give a match of the whole. */
  lemma JoinPiece(item: Item, rest: seq<Item>, text: string, n: nat)
    requires Takes(item, text, 0, n)
    requires MatchesHere(rest, text[n..])
    ensures MatchesHere([item] + rest, text)
  {
    var cuts :| Cuts(rest, text[n..], cuts);
    var shifted := [0] + seq(|cuts|, i requires 0 <= i < |cuts| => cuts[i] + n);
    var items := [item] + rest;
    forall i | 0 <= i < |items|
      ensures Takes(items[i], text, shifted[i], shifted[i + 1])
    {
      if i > 0 {
        TakesShift(rest[i - 1], text, n, cuts[i - 1], cuts[i]);
      }
    }
    assert Cuts(items, text, shifted);
  }

  lemma TakesShift(item: Item, text: string, n: nat, lo: nat, hi: nat)
    requires n <= |text|
    ensures Takes(item, text[n..], lo, hi) <==> Takes(item, text, lo + n, hi + n)
  {
    if lo <= hi <= |text| - n {
      assert text[n..][lo..hi] == text[lo + n..hi + n];
    }
  }

  /** The converse: a match of the whole splits off its first piece. */
  lemma SplitPiece(item: Item, rest: seq<Item>, text: string) returns (n: nat)
    requires MatchesHere([item] + rest, text)
    ensures Takes(item, text, 0, n)
    ensures MatchesHere(rest, text[n..])
  {
    var items := [item] + rest;
    var cuts :| Cuts(items, text, cuts);
    n := cuts[1];
    assert Takes(items[0], text, cuts[0], cuts[1]);
    CutsFrom(items, text, cuts, 1);
    var shifted := seq(|cuts| - 1, i requires 0 <= i < |cuts| - 1 => cuts[i + 1] - n);
    forall i | 0 <= i < |rest|
      ensures Takes(rest[i], text[n..], shifted[i], shifted[i + 1])
    {
      assert Takes(items[i + 1], text, cuts[i + 1], cuts[i + 2]);
      TakesShift(rest[i], text, n, shifted[i], shifted[i + 1]);
    }
    assert Cuts(rest, text[n..], shifted);
  }

  /** Cut positions never decrease. */
  lemma {:induction false} CutsFrom(items: seq<Item>, text: string, cuts: seq<nat>, k: nat)
    requires Cuts(items, text, cuts)
    requires k < |cuts|
    ensures forall j | k <= j < |cuts| :: cuts[k] <= cuts[j]
    decreases |cuts| - k
  {
    if k + 1 < |cuts| {
      CutsFrom(items, text, cuts, k + 1);
      assert Takes(items[k], text, cuts[k], cuts[k + 1]);
    }
  }

  /** A match that begins with a single character consumes that character first. */
  lemma OnceStep(c: char, rest: seq<Item>, text: string)
    ensures MatchesHere([Once(c)] + rest, text)
      <==> text != [] && Accepts(c, text[0]) && MatchesHere(rest, text[1..])
  {
    if MatchesHere([Once(c)] + rest, text) {
      var n := SplitPiece(Once(c), rest, text);
    }
    if text != [] && Accepts(c, text[0]) && MatchesHere(rest, text[1..]) {
      JoinPiece(Once(c), rest, text, 1);
    }
  }

  /** A match that begins with a star lets the star consume a run of accepted characters. */
  lemma StarSplit(c: char, rest: seq<Item>, text: string) returns (n: nat)
    requires MatchesHere([Star(c)] + rest, text)
    ensures n <= |text|
    ensures forall k | 0 <= k < n :: Accepts(c, text[k])
    ensures MatchesHere(rest, text[n..])
  {
    n := SplitPiece(Star(c), rest, text);
    forall k | 0 <= k < n ensures Accepts(c, text[k]) {
      assert text[0..n][k] == text[k];
    }
  }

  lemma EndStep(text: string)
    ensures MatchesHere([End], text) <==> text == []
  {
    if MatchesHere([End], text) {
      assert [End] == [End] + [];
      var n := SplitPiece(End, [], text);
    }
    if text == [] {
      EmptyMatches(text[0..]);
      JoinPiece(End, [], text, 0);
      assert [End] == [End] + [];
    }
  }

  method MatchHere(re: CString, text: CString) returns (r: bool)
    ensures r <==> MatchesHere(Items(re), text)
    decreases |re|, 0
  {
    if re == [] {
      EmptyMatches(text);
      return true;
    }
    if |re| > 1 && re[1] == '*' {
      r := MatchStar(re[0], re[2..], text);
      return;
    }
    if re == "$" {
      EndStep(text);
      return text == [];
    }
    OnceStep(re[0], Items(re[1..]), text);
    if text != [] && (re[0] == '.' || re[0] == text[0]) {
      r := MatchHere(re[1..], text[1..]);
      return;
    }
    return false;
  }

  /** Search for zero or more of `c`, then `re`. */
  method MatchStar(c: char, re: CString, text: CString) returns (r: bool)
    ensures r <==> MatchesHere([Star(c)] + Items(re), text)
    decreases |re|, 1
  {
    var i := 0;
    while true
      invariant 0 <= i <= |text|
      invariant forall x | x in text[..i] :: Accepts(c, x)
      invariant forall n | 0 <= n < i :: !MatchesHere(Items(re), text[n..])
      decreases |text| - i
    {
      var here := MatchHere(re, text[i..]);
      if here {
        assert text[0..i] == text[..i];
        JoinPiece(Star(c), Items(re), text, i);
        return true;
      }
      if !(i < |text| && (text[i] == c || c == '.')) {
        break;
      }
      assert text[..i + 1] == text[..i] + [text[i]];
      i := i + 1;
    }
    if MatchesHere([Star(c)] + Items(re), text) {
      var n := StarSplit(c, Items(re), text);
      assert false;
    }
    return false;
  }

  method Match(re: CString, text: CString) returns (r: bool)
    ensures r <==> Matches(re, text)
  {
    if re != [] && re[0] == '^' {
      r := MatchHere(re[1..], text);
      return;
    }
    var i := 0;
    while true
      invariant 0 <= i <= |text|
      invariant forall n | 0 <= n < i :: !MatchesHere(Items(re), text[n..])
      decreases |text| - i
    {
      var here := MatchHere(re, text[i..]);
      if here {
        return true;
      }
      if i == |text| {
        break;
      }
      i := i + 1;
    }
    return false;
  }
}
