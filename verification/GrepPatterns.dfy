/** What patterns mean (grep.c), said of the text itself and not of items. */
module GrepPatterns {
  import opened Grep

  /** A pattern of literals and dots. */
  predicate Simple(w: string) {
    forall k :: 0 <= k < |w| ==> w[k] != '*' && w[k] != '$'
  }

  /** The text has w at position i, a dot standing for any character. */
  predicate Here(w: string, text: string, i: nat) {
    i + |w| <= |text| && forall k :: 0 <= k < |w| ==> w[k] == '.' || w[k] == text[i + k]
  }

  function Ones(w: string): seq<Item> {
    if w == "" then [] else [One(w[0])] + Ones(w[1..])
  }

  lemma {:induction false} ItemsOf(w: string, rest: string)
    requires Simple(w) && (rest == "" || rest[0] != '*')
    ensures Items(w + rest) == Ones(w) + Items(rest)
  {
    if w == "" {
      assert w + rest == rest;
    } else {
      var re := w + rest;
      assert re[1..] == w[1..] + rest && re[0] == w[0] && re != "$";
      assert |re| > 1 ==> re[1] == (if |w| > 1 then w[1] else rest[0]);
      ItemsOf(w[1..], rest);
    }
  }

  lemma HereFirst(w: string, text: string, i: nat)
    requires w != ""
    ensures Here(w, text, i) <==> i < |text| && (w[0] == '.' || w[0] == text[i]) && Here(w[1..], text, i + 1)
  {
    if i < |text| && (w[0] == '.' || w[0] == text[i]) && Here(w[1..], text, i + 1) {
      forall k | 0 <= k < |w|
        ensures w[k] == '.' || w[k] == text[i + k]
      {
        if k > 0 {
          assert w[k] == w[1..][k - 1] && text[i + k] == text[i + 1 + (k - 1)];
        }
      }
    }
    if Here(w, text, i) {
      forall k | 0 <= k < |w[1..]|
        ensures w[1..][k] == '.' || w[1..][k] == text[i + 1 + k]
      {
        assert w[1..][k] == w[k + 1] && text[i + 1 + k] == text[i + (k + 1)];
      }
    }
  }

  lemma {:induction false} OnesMatch(w: string, items: seq<Item>, text: string, i: nat)
    ensures MatchesAt(Ones(w) + items, text, i) <==> Here(w, text, i) && MatchesAt(items, text, i + |w|)
    decreases |w|
  {
    hide MatchesAt, Here;
    if w == "" {
      assert Ones(w) + items == items;
      HereNone(text, i, items);
    } else {
      assert Ones(w) + items == [One(w[0])] + (Ones(w[1..]) + items);
      OneFirst(w[0], Ones(w[1..]) + items, text, i);
      HereFirst(w, text, i);
      OnesMatch(w[1..], items, text, i + 1);
    }
  }

  lemma HereNone(text: string, i: nat, items: seq<Item>)
    ensures MatchesAt(items, text, i) ==> Here("", text, i)
  {
    if MatchesAt(items, text, i) {
      var cuts :| DerivesFrom(items, text, i, cuts);
    }
  }

  lemma PlainAt(w: string, text: string, i: nat)
    requires Simple(w)
    ensures MatchesAt(Items(w), text, i) <==> Here(w, text, i)
  {
    hide MatchesAt, Items;
    ItemsOf(w, "");
    assert w + "" == w;
    assert Items("") == [] by {
      NoPattern();
    }
    OnesMatch(w, [], text, i);
    if Here(w, text, i) {
      NoItems(text, i + |w|);
    }
  }

  lemma NoPattern()
    ensures Items("") == [] && Items("$") == [Stop]
  {
  }

  lemma EndAt(w: string, text: string, i: nat)
    requires Simple(w)
    ensures MatchesAt(Items(w + "$"), text, i) <==> Here(w, text, i) && i + |w| == |text|
  {
    hide MatchesAt, Items;
    ItemsOf(w, "$");
    NoPattern();
    OnesMatch(w, [Stop], text, i);
    if Here(w, text, i) {
      StopFirst(text, i + |w|);
    }
  }

  /** A pattern of literals and dots occurs where the text has it. */
  lemma PlainIff(w: string, text: string)
    requires Simple(w) && (w == "" || w[0] != '^')
    ensures Occurs(w, text) <==> exists i: nat :: Here(w, text, i)
  {
    hide MatchesAt, Items;
    forall i: nat
      ensures MatchesAt(Items(w), text, i) <==> Here(w, text, i)
    {
      PlainAt(w, text, i);
    }
  }

  /** After ^ it must be at the start; before $ at the end; between the two it is the whole text. */
  lemma AnchoredIff(w: string, text: string)
    requires Simple(w)
    ensures Occurs("^" + w, text) <==> Here(w, text, 0)
    ensures w == "" || w[0] != '^' ==> (Occurs(w + "$", text) <==> |w| <= |text| && Here(w, text, |text| - |w|))
    ensures Occurs("^" + (w + "$"), text) <==> |w| == |text| && Here(w, text, 0)
  {
    hide MatchesAt, Items;
    assert ("^" + w)[1..] == w && ("^" + (w + "$"))[1..] == w + "$";
    PlainAt(w, text, 0);
    forall i: nat
      ensures MatchesAt(Items(w + "$"), text, i) <==> Here(w, text, i) && i + |w| == |text|
    {
      EndAt(w, text, i);
    }
    if |w| <= |text| {
      assert Here(w, text, |text| - |w|) <==> MatchesAt(Items(w + "$"), text, |text| - |w|);
    }
  }

  /** The text from a to b is any number of c, or of anything if c is a dot. */
  predicate Repeats(c: char, text: string, a: nat, b: nat) {
    a <= b <= |text| && forall k :: a <= k < b ==> c == '.' || c == text[k]
  }

  /** ^uc*v$ is u, any number of c, and v, and nothing else. */
  lemma StarIff(u: string, c: char, v: string, text: string)
    requires Simple(u) && Simple(v) && c != '*'
    ensures Occurs("^" + (u + ([c] + "*" + (v + "$"))), text) <==>
            exists k: nat :: Here(u, text, 0) && Repeats(c, text, |u|, k) && Here(v, text, k) && k + |v| == |text|
  {
    hide MatchesAt, Items;
    var tail := [c] + "*" + (v + "$");
    assert ("^" + (u + tail))[1..] == u + tail;
    ItemsOf(u, tail);
    StarItems(c, v + "$");
    OnesMatch(u, Items(tail), text, 0);
    StarFirst(c, Items(v + "$"), text, |u|);
    forall k: nat
      ensures StarThen(c, Items(v + "$"), text, |u|, k) <==> Repeats(c, text, |u|, k) && Here(v, text, k) && k + |v| == |text|
    {
      EndAt(v, text, k);
    }
  }

  lemma StarItems(c: char, re: string)
    ensures Items([c] + "*" + re) == [Many(c)] + Items(re)
  {
    assert ([c] + "*" + re)[2..] == re;
  }
}
