/** The matcher of p2/xv6/user/grep.c. A C string is the sequence of its characters before the
    NUL; the pointers re and text only move towards their ends, so they are suffixes. */
module Grep {

  // ----- What a pattern means

  /** A pattern is a row of units: one character, or any number of them. */
  datatype Unit = One(c: char) | Many(c: char)

  predicate Fits(c: char, x: char) {
    c == '.' || c == x
  }

  predicate AllFit(c: char, w: string) {
    forall i: nat {:trigger w[i]} | i < |w| :: Fits(c, w[i])
  }

  predicate Spells(u: Unit, w: string) {
    match u
    case One(c) => |w| == 1 && Fits(c, w[0])
    case Many(c) => AllFit(c, w)
  }

  function Units(re: string): seq<Unit> {
    if re == [] then []
    else if |re| >= 2 && re[1] == '*' then [Many(re[0])] + Units(re[2..])
    else [One(re[0])] + Units(re[1..])
  }

  function Join(pieces: seq<string>): string {
    if pieces == [] then "" else pieces[0] + Join(pieces[1..])
  }

  ghost predicate Splits(units: seq<Unit>, pieces: seq<string>, w: string) {
    && |pieces| == |units| && Join(pieces) == w
    && forall i: nat {:trigger pieces[i]} | i < |units| :: Spells(units[i], pieces[i])
  }

  /** w is a row of pieces, one for each unit. */
  ghost predicate InLanguage(units: seq<Unit>, w: string) {
    exists pieces: seq<string> :: Splits(units, pieces, w)
  }

  predicate Anchored(re: string) {
    |re| > 0 && re[|re| - 1] == '$'
  }

  function Body(re: string): string {
    if Anchored(re) then re[..|re| - 1] else re
  }

  ghost predicate HereUpTo(re: string, text: string, n: nat) {
    n <= |text| && InLanguage(Units(Body(re)), text[..n]) && (Anchored(re) ==> n == |text|)
  }

  /** A prefix of the text is in the pattern's language, all of it when the pattern ends in '$'. */
  ghost predicate Here(re: string, text: string) {
    exists n: nat :: HereUpTo(re, text, n)
  }

  ghost predicate HereFrom(re: string, text: string, k: nat) {
    k <= |text| && Here(re, text[k..])
  }

  /** ... of some suffix of the text, or of the text itself when the pattern starts with '^'. */
  ghost predicate Matches(re: string, text: string) {
    if |re| > 0 && re[0] == '^' then Here(re[1..], text)
    else exists k: nat :: HereFrom(re, text, k)
  }

  // ----- The language, unit by unit

  lemma NoUnits(w: string)
    ensures InLanguage([], w) <==> w == []
  {
    assert w == [] ==> Splits([], [], w);
  }

  lemma FirstPiece(units: seq<Unit>, w: string) returns (k: nat)
    requires units != [] && InLanguage(units, w)
    ensures k <= |w| && Spells(units[0], w[..k]) && InLanguage(units[1..], w[k..])
  {
    var pieces: seq<string> :| Splits(units, pieces, w);
    k := |pieces[0]|;
    assert w[..k] == pieces[0] && w[k..] == Join(pieces[1..]);
    assert Splits(units[1..], pieces[1..], w[k..]);
  }

  lemma AddPiece(units: seq<Unit>, w: string, k: nat)
    requires units != [] && k <= |w| && Spells(units[0], w[..k]) && InLanguage(units[1..], w[k..])
    ensures InLanguage(units, w)
  {
    var rest: seq<string> :| Splits(units[1..], rest, w[k..]);
    var pieces := [w[..k]] + rest;
    assert pieces[1..] == rest && Join(pieces) == w[..k] + w[k..] == w;
    assert Splits(units, pieces, w);
  }

  // ----- matchhere, case by case

  /** A pattern that starts with a unit and goes on with rest. */
  lemma HereStarts(re: string, rest: string, u: Unit)
    requires |re| > 0 && re != "$"
    requires if |re| >= 2 && re[1] == '*' then u == Many(re[0]) && rest == re[2..]
             else u == One(re[0]) && rest == re[1..]
    ensures Anchored(rest) == Anchored(re) && Units(Body(re)) == [u] + Units(Body(rest))
  {
    var w := if u.Many? then 2 else 1;
    assert Anchored(re) ==> |re| > w;
    assert Body(re)[w..] == Body(rest);
  }

  lemma HereSplits(re: string, rest: string, u: Unit, text: string) returns (k: nat)
    requires Anchored(rest) == Anchored(re) && Units(Body(re)) == [u] + Units(Body(rest)) && Here(re, text)
    ensures k <= |text| && Spells(u, text[..k]) && Here(rest, text[k..])
  {
    var n: nat :| HereUpTo(re, text, n);
    var units := Units(Body(re));
    k := FirstPiece(units, text[..n]);
    assert units[1..] == Units(Body(rest));
    assert text[..n][..k] == text[..k] && text[..n][k..] == text[k..][..n - k];
    assert HereUpTo(rest, text[k..], n - k);
  }

  lemma HereJoins(re: string, rest: string, u: Unit, text: string, k: nat)
    requires Anchored(rest) == Anchored(re) && Units(Body(re)) == [u] + Units(Body(rest))
    requires k <= |text| && Spells(u, text[..k]) && Here(rest, text[k..])
    ensures Here(re, text)
  {
    var n: nat :| HereUpTo(rest, text[k..], n);
    var units := Units(Body(re));
    assert units[1..] == Units(Body(rest));
    var w := text[..k + n];
    assert w[..k] == text[..k] && w[k..] == text[k..][..n];
    AddPiece(units, w, k);
    assert HereUpTo(re, text, k + n);
  }

  lemma HereEmpty(text: string)
    ensures Here("", text)
  {
    NoUnits(text[..0]);
    assert HereUpTo("", text, 0);
  }

  lemma HereDollar(text: string)
    ensures Here("$", text) <==> text == ""
  {
    assert Body("$") == "";
    if Here("$", text) {
      var n: nat :| HereUpTo("$", text, n);
      NoUnits(text[..n]);
    }
    if text == "" {
      NoUnits(text[..0]);
      assert HereUpTo("$", text, 0);
    }
  }

  lemma HereOne(re: string, text: string)
    requires |re| > 0 && re != "$" && !(|re| >= 2 && re[1] == '*')
    ensures Here(re, text) <==> text != "" && Fits(re[0], text[0]) && Here(re[1..], text[1..])
  {
    HereStarts(re, re[1..], One(re[0]));
    if Here(re, text) {
      var k := HereSplits(re, re[1..], One(re[0]), text);
    }
    if text != "" && Fits(re[0], text[0]) && Here(re[1..], text[1..]) {
      HereJoins(re, re[1..], One(re[0]), text, 1);
    }
  }

  /** k characters taken by the star. */
  ghost predicate StarTakes(c: char, re: string, text: string, k: nat) {
    k <= |text| && AllFit(c, text[..k]) && Here(re, text[k..])
  }

  lemma HereMany(re: string, text: string)
    requires |re| >= 2 && re[1] == '*'
    ensures Here(re, text) <==> exists k: nat :: StarTakes(re[0], re[2..], text, k)
  {
    HereStarts(re, re[2..], Many(re[0]));
    if Here(re, text) {
      var k := HereSplits(re, re[2..], Many(re[0]), text);
      assert StarTakes(re[0], re[2..], text, k);
    }
    if k: nat :| StarTakes(re[0], re[2..], text, k) {
      HereJoins(re, re[2..], Many(re[0]), text, k);
    }
  }

  lemma TakesFit(c: char, re: string, text: string, k: nat, i: nat)
    ensures StarTakes(c, re, text, k) && i < k ==> i < |text| && Fits(c, text[i])
  {
    if StarTakes(c, re, text, k) && i < k {
      assert text[..k][i] == text[i];
    }
  }

  // ----- The program

  /** matchhere */
  method MatchHere(re: string, text: string) returns (b: bool)
    ensures b <==> Here(re, text)
    decreases |re|, 0
  {
    if re == "" {
      HereEmpty(text);
      return true;
    }
    if |re| >= 2 && re[1] == '*' {
      HereMany(re, text);
      b := MatchStar(re[0], re[2..], text);
      return;
    }
    if re[0] == '$' && |re| == 1 {
      assert re == "$";
      HereDollar(text);
      return text == "";
    }
    HereOne(re, text);
    if text != "" && (re[0] == '.' || re[0] == text[0]) {
      b := MatchHere(re[1..], text[1..]);
      return;
    }
    return false;
  }

  /** matchstar */
  method MatchStar(c: char, re: string, text: string) returns (b: bool)
    ensures b <==> exists k: nat :: StarTakes(c, re, text, k)
    decreases |re|, 1
  {
    var i := 0;
    while true
      invariant i <= |text| && AllFit(c, text[..i])
      invariant forall k: nat {:trigger StarTakes(c, re, text, k)} | k < i :: !StarTakes(c, re, text, k)
      decreases |text| - i
    {
      b := MatchHere(re, text[i..]);
      if b {
        assert StarTakes(c, re, text, i);
        return;
      }
      if !(i < |text| && (text[i] == c || c == '.')) {
        forall k: nat { TakesFit(c, re, text, k, i); }
        return;
      }
      assert text[..i + 1] == text[..i] + [text[i]];
      i := i + 1;
    }
  }

  /** match */
  method Match(re: string, text: string) returns (b: bool)
    ensures b <==> Matches(re, text)
  {
    if |re| > 0 && re[0] == '^' {
      b := MatchHere(re[1..], text);
      return;
    }
    for i := 0 to |text| + 1
      invariant forall k: nat {:trigger HereFrom(re, text, k)} | k < i :: !HereFrom(re, text, k)
    {
      b := MatchHere(re, text[i..]);
      if b {
        assert HereFrom(re, text, i);
        return;
      }
    }
    b := false;
  }
}
