/** The regular-expression matcher of grep.c: literals, `.`, `c*`, a leading `^` and a final `$`.

    A C string is a `string` without NUL; reading it at its length yields the terminating NUL. */
module Grep {

  /** One element of a pattern. */
  datatype Item =
    | One(c: char)    // a literal character, or any character when c is '.'
    | Many(c: char)   // c*
    | Stop            // a final '$'

  predicate IsCString(s: string) {
    '\0' !in s
  }

  function At(s: string, i: nat): char
    requires i <= |s|
  {
    if i == |s| then '\0' else s[i]
  }

  /** The grammar of patterns: how a pattern (without its leading `^`) splits into items. */
  function Items(re: string): seq<Item> {
    if re == "" then []
    else if |re| > 1 && re[1] == '*' then [Many(re[0])] + Items(re[2..])
    else if re == "$" then [Stop]
    else [One(re[0])] + Items(re[1..])
  }

  predicate Covers(c: char, x: char) {
    c == '.' || c == x
  }

  /** The text between positions a and b is in the language of one item. */
  ghost predicate ItemMatches(item: Item, text: string, a: nat, b: nat)
    requires a <= b <= |text|
  {
    match item
    case One(c) => b == a + 1 && Covers(c, text[a])
    case Many(c) => forall i :: a <= i < b ==> Covers(c, text[i])
    case Stop => a == b == |text|
  }

  /** `cuts` divides a stretch of the text into one piece per item, each in its item's language. */
  ghost predicate Derivation(items: seq<Item>, text: string, cuts: seq<nat>) {
    && |cuts| == |items| + 1
    && (forall m :: 0 <= m < |cuts| ==> cuts[m] <= |text|)
    && (forall m :: 0 <= m < |items| ==>
          cuts[m] <= cuts[m + 1] && ItemMatches(items[m], text, cuts[m], cuts[m + 1]))
  }

  ghost predicate DerivesFrom(items: seq<Item>, text: string, start: nat, cuts: seq<nat>) {
    Derivation(items, text, cuts) && cuts[0] == start
  }

  /** Some stretch of the text beginning at `start` is in the language of the items. */
  ghost predicate MatchesAt(items: seq<Item>, text: string, start: nat) {
    exists cuts :: DerivesFrom(items, text, start, cuts)
  }

  /** The language of whole patterns: a leading `^` ties the stretch to the start of the text,
      otherwise it may begin anywhere. */
  ghost predicate Occurs(re: string, text: string) {
    if re != "" && re[0] == '^' then MatchesAt(Items(re[1..]), text, 0)
    else exists i: nat :: i <= |text| && MatchesAt(Items(re), text, i)
  }

  lemma NoItems(text: string, start: nat)
    requires start <= |text|
    ensures MatchesAt([], text, start)
  {
    assert DerivesFrom([], text, start, [start]);
  }

  lemma ConsItem(items: seq<Item>, text: string, start: nat, mid: nat)
    requires items != []
    requires start <= mid <= |text| && ItemMatches(items[0], text, start, mid)
    requires MatchesAt(items[1..], text, mid)
    ensures MatchesAt(items, text, start)
  {
    var cuts :| DerivesFrom(items[1..], text, mid, cuts);
    var all := [start] + cuts;
    forall m | 0 <= m < |items|
      ensures all[m] <= all[m + 1] && ItemMatches(items[m], text, all[m], all[m + 1])
    {
      if m > 0 {
        assert items[m] == items[1..][m - 1];
      }
    }
    assert DerivesFrom(items, text, start, all);
  }

  lemma UnconsItem(items: seq<Item>, text: string, start: nat) returns (mid: nat)
    requires items != [] && MatchesAt(items, text, start)
    ensures start <= mid <= |text| && ItemMatches(items[0], text, start, mid)
    ensures MatchesAt(items[1..], text, mid)
  {
    var cuts :| DerivesFrom(items, text, start, cuts);
    mid := cuts[1];
    assert ItemMatches(items[0], text, cuts[0], cuts[1]);
    var rest := cuts[1..];
    forall m | 0 <= m < |items[1..]|
      ensures rest[m] <= rest[m + 1] && ItemMatches(items[1..][m], text, rest[m], rest[m + 1])
    {
      assert items[1..][m] == items[m + 1] && rest[m] == cuts[m + 1] && rest[m + 1] == cuts[m + 2];
    }
    assert DerivesFrom(items[1..], text, mid, rest);
  }

  /** Zero or more characters covered by c from `t` up to `k`, then the remaining items at `k`. */
  ghost predicate StarThen(c: char, rest: seq<Item>, text: string, t: nat, k: nat) {
    && t <= k <= |text|
    && ItemMatches(Many(c), text, t, k)
    && MatchesAt(rest, text, k)
  }

  lemma StarFirst(c: char, rest: seq<Item>, text: string, t: nat)
    ensures MatchesAt([Many(c)] + rest, text, t) <==> exists k: nat :: StarThen(c, rest, text, t, k)
  {
    var items := [Many(c)] + rest;
    assert items[1..] == rest;
    if MatchesAt(items, text, t) {
      var k := UnconsItem(items, text, t);
      assert StarThen(c, rest, text, t, k);
    }
    if k: nat :| StarThen(c, rest, text, t, k) {
      ConsItem(items, text, t, k);
    }
  }

  lemma OneFirst(c: char, rest: seq<Item>, text: string, t: nat)
    ensures MatchesAt([One(c)] + rest, text, t)
            <==> t < |text| && Covers(c, text[t]) && MatchesAt(rest, text, t + 1)
  {
    var items := [One(c)] + rest;
    assert items[1..] == rest;
    if MatchesAt(items, text, t) {
      var k := UnconsItem(items, text, t);
    }
    if t < |text| && Covers(c, text[t]) && MatchesAt(rest, text, t + 1) {
      ConsItem(items, text, t, t + 1);
    }
  }

  lemma StopFirst(text: string, t: nat)
    ensures MatchesAt([Stop], text, t) <==> t == |text|
  {
    if MatchesAt([Stop], text, t) {
      var k := UnconsItem([Stop], text, t);
    }
    if t == |text| {
      NoItems(text, t);
      assert [Stop][1..] == [];
      ConsItem([Stop], text, t, t);
    }
  }

  /** `matchhere`: decides whether the pattern from `p` on matches at text position `t`. */
  method MatchHere(re: string, p: nat, text: string, t: nat) returns (r: bool)
    requires IsCString(re) && IsCString(text) && p <= |re| && t <= |text|
    ensures r <==> MatchesAt(Items(re[p..]), text, t)
    decreases |re| - p, 0
  {
    if At(re, p) == '\0' {
      NoItems(text, t);
      return true;
    }
    if At(re, p + 1) == '*' {
      assert re[p..][1] == '*' && re[p..][2..] == re[p + 2..];
      assert Items(re[p..]) == [Many(re[p])] + Items(re[p + 2..]);
      StarFirst(re[p], Items(re[p + 2..]), text, t);
      r := MatchStar(re[p], re, p + 2, text, t);
      return;
    }
    if re[p] == '$' && At(re, p + 1) == '\0' {
      assert re[p..] == "$";
      StopFirst(text, t);
      return At(text, t) == '\0';
    }
    assert re[p..][1..] == re[p + 1..];
    OneFirst(re[p], Items(re[p + 1..]), text, t);
    if At(text, t) != '\0' && (re[p] == '.' || re[p] == text[t]) {
      r := MatchHere(re, p + 1, text, t + 1);
      return;
    }
    return false;
  }

  /** `matchstar`: the do-while loop over the number of repetitions. */
  method MatchStar(c: char, re: string, p: nat, text: string, t: nat) returns (r: bool)
    requires IsCString(re) && IsCString(text) && p <= |re| && t <= |text|
    ensures r <==> exists k: nat :: StarThen(c, Items(re[p..]), text, t, k)
    decreases |re| - p, 1
  {
    var s := t;
    while true
      invariant t <= s <= |text|
      invariant forall i :: t <= i < s ==> Covers(c, text[i])
      invariant forall k: nat :: k < s ==> !StarThen(c, Items(re[p..]), text, t, k)
      decreases |text| - s
    {
      var here := MatchHere(re, p, text, s);
      if here {
        assert StarThen(c, Items(re[p..]), text, t, s);
        return true;
      }
      if At(text, s) == '\0' || !(text[s] == c || c == '.') {
        return false;
      }
      s := s + 1;
    }
  }

  /** `match`: true exactly when the text has an occurrence of the pattern. */
  method Match(re: string, text: string) returns (r: bool)
    requires IsCString(re) && IsCString(text)
    ensures r <==> Occurs(re, text)
  {
    if At(re, 0) == '^' {
      r := MatchHere(re, 1, text, 0);
      return;
    }
    assert re[0..] == re;
    var i := 0;
    while true
      invariant i <= |text|
      invariant forall j: nat :: j < i ==> !MatchesAt(Items(re), text, j)
      decreases |text| - i
    {
      var here := MatchHere(re, 0, text, i);
      if here {
        return true;
      }
      if At(text, i) == '\0' {
        return false;
      }
      i := i + 1;
    }
  }
}
