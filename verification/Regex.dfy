/** The regular-expression matcher of grep.c, against a declarative definition of what it matches. */
module Regex {

  // A C string without its terminating NUL.
  type CString = s: seq<char> | '\0' !in s

  // ---------- What a pattern means ----------

  // One character or '.', once or starred.
  datatype Item = One(c: char) | Star(c: char)

  predicate Matches(c: char, x: char) { c == '.' || c == x }

  predicate InItem(it: Item, w: seq<char>) {
    match it
    case One(c) => |w| == 1 && Matches(c, w[0])
    case Star(c) => forall i :: 0 <= i < |w| ==> Matches(c, w[i])
  }

  // w is the concatenation of one word from each item.
  predicate InLanguage(items: seq<Item>, w: seq<char>) {
    if items == [] then w == []
    else exists k :: 0 <= k <= |w| && InItem(items[0], w[..k]) && InLanguage(items[1..], w[k..])
  }

  // `c*` is a starred item wherever it stands; `$` is an anchor only as the last character.
  function Items(re: seq<char>): seq<Item> {
    if re == [] || re == "$" then []
    else if |re| >= 2 && re[1] == '*' then [Star(re[0])] + Items(re[2..])
    else [One(re[0])] + Items(re[1..])
  }

  predicate EndAnchored(re: seq<char>) {
    if re == [] then false
    else if |re| >= 2 && re[1] == '*' then EndAnchored(re[2..])
    else re == "$" || EndAnchored(re[1..])
  }

  // Some prefix of text is in the language, all of text if the pattern ends in '$'.
  predicate MatchesPrefix(re: seq<char>, text: seq<char>) {
    exists j :: 0 <= j <= |text| && InLanguage(Items(re), text[..j]) && (EndAnchored(re) ==> j == |text|)
  }

  // Some substring, a prefix if the pattern starts with '^'.
  predicate MatchesSomewhere(re: seq<char>, text: seq<char>) {
    if re != [] && re[0] == '^' then MatchesPrefix(re[1..], text)
    else exists i :: 0 <= i <= |text| && MatchesPrefix(re, text[i..])
  }

  // ---------- Unfolding the language along the text ----------

  lemma OneStep(re: seq<char>, text: seq<char>)
    requires re != [] && re != "$" && !(|re| >= 2 && re[1] == '*')
    ensures MatchesPrefix(re, text) <==> text != [] && Matches(re[0], text[0]) && MatchesPrefix(re[1..], text[1..])
  {
    var rest := Items(re[1..]);
    assert Items(re)[1..] == rest;
    if j :| 0 <= j <= |text| && InLanguage(Items(re), text[..j]) && (EndAnchored(re) ==> j == |text|) {
      var w := text[..j];
      var k :| 0 <= k <= |w| && InItem(One(re[0]), w[..k]) && InLanguage(rest, w[k..]);
      assert w[1..] == text[1..][..j - 1];
    }
    if text != [] && Matches(re[0], text[0]) && MatchesPrefix(re[1..], text[1..]) {
      var j :| 0 <= j <= |text| - 1 && InLanguage(rest, text[1..][..j]) && (EndAnchored(re[1..]) ==> j == |text| - 1);
      var w := text[..j + 1];
      assert w[1..] == text[1..][..j] && InItem(One(re[0]), w[..1]);
      assert InLanguage(Items(re), text[..j + 1]);
    }
  }

  // c* followed by re: some number k of characters that c matches, then re.
  lemma StarStep(re: seq<char>, text: seq<char>)
    requires |re| >= 2 && re[1] == '*'
    ensures MatchesPrefix(re, text) <==>
      exists k :: 0 <= k <= |text| && InItem(Star(re[0]), text[..k]) && MatchesPrefix(re[2..], text[k..])
  {
    var rest := Items(re[2..]);
    assert Items(re)[1..] == rest;
    if j :| 0 <= j <= |text| && InLanguage(Items(re), text[..j]) && (EndAnchored(re) ==> j == |text|) {
      var w := text[..j];
      var k :| 0 <= k <= |w| && InItem(Star(re[0]), w[..k]) && InLanguage(rest, w[k..]);
      assert w[k..] == text[k..][..j - k] && w[..k] == text[..k];
      assert MatchesPrefix(re[2..], text[k..]);
    }
    if k :| 0 <= k <= |text| && InItem(Star(re[0]), text[..k]) && MatchesPrefix(re[2..], text[k..]) {
      var j :| 0 <= j <= |text| - k && InLanguage(rest, text[k..][..j]) && (EndAnchored(re[2..]) ==> j == |text| - k);
      var w := text[..k + j];
      assert w[k..] == text[k..][..j] && w[..k] == text[..k];
      assert InLanguage(Items(re), text[..k + j]);
    }
  }

  lemma StarGoesOn(c: char, text: seq<char>, k: nat)
    ensures forall m :: k < m <= |text| && InItem(Star(c), text[..m]) ==> Matches(c, text[k])
  {
    forall m | k < m <= |text| && InItem(Star(c), text[..m]) ensures Matches(c, text[k]) {
      assert text[..m][k] == text[k];
    }
  }

  lemma EmptyStep(text: seq<char>)
    ensures MatchesPrefix([], text) && (MatchesPrefix("$", text) <==> text == [])
  {
    assert InLanguage(Items([]), text[..0]);
    if text == [] { assert InLanguage(Items("$"), text[..0]); }
  }

  // ---------- The matcher ----------

  /** matchhere: does the pattern match a prefix of the text? */
  method MatchHere(re: CString, text: CString) returns (found: bool)
    ensures found <==> MatchesPrefix(re, text)
    decreases |re|, |text|, 0
  {
    EmptyStep(text);
    if re == [] { return true; }
    if |re| >= 2 && re[1] == '*' {
      found := MatchStar(re[0], re[2..], text);
      StarStep(re, text);
      return;
    }
    if re[0] == '$' && |re| == 1 { return text == []; }
    OneStep(re, text);
    if text != [] && (re[0] == '.' || re[0] == text[0]) {
      found := MatchHere(re[1..], text[1..]);
      return;
    }
    return false;
  }

  /** matchstar: does c* followed by the pattern match a prefix of the text? */
  method MatchStar(c: char, re: CString, text: CString) returns (found: bool)
    ensures found <==> exists k :: 0 <= k <= |text| && InItem(Star(c), text[..k]) && MatchesPrefix(re, text[k..])
    decreases |re|, |text|, 1
  {
    var k := 0;
    while true
      invariant 0 <= k <= |text| && InItem(Star(c), text[..k])
      invariant forall m :: 0 <= m < k ==> !MatchesPrefix(re, text[m..])
      decreases |text| - k
    {
      found := MatchHere(re, text[k..]);
      if found { return; }
      StarGoesOn(c, text, k);
      if k < |text| && (text[k] == c || c == '.') {
        k := k + 1;
      } else {
        return false;
      }
    }
  }

  /** match: does the pattern match somewhere in the text? */
  method Match(re: CString, text: CString) returns (found: bool)
    ensures found <==> MatchesSomewhere(re, text)
  {
    if re != [] && re[0] == '^' {
      found := MatchHere(re[1..], text);
      return;
    }
    var i := 0;
    while true
      invariant 0 <= i <= |text| && forall m :: 0 <= m < i ==> !MatchesPrefix(re, text[m..])
      decreases |text| - i
    {
      found := MatchHere(re, text[i..]);
      if found { return; }
      if i == |text| { return false; }
      i := i + 1;
    }
  }
}
