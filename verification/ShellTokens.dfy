/** The tokens of a line. The parse depends on them alone, and blanks only keep them apart. */
module ShellTokens {
  import opened Shell
  import opened ShellRoundTrip

  datatype Tok = Tok(kind: char, text: string)

  /** What gettoken gives, call after call. */
  function Toks(s: string): seq<Tok>
    decreases |s|
  {
    var t := GetToken(s);
    if t.kind == '\0' then [] else [Tok(t.kind, t.text)] + Toks(t.rest)
  }

  /** A word is free of blanks and symbols; a symbol is its own kind, and >> is '+'. */
  predicate IsTok(t: Tok) {
    if t.kind == 'a' then t.text != "" && forall i :: 0 <= i < |t.text| ==> t.text[i] !in " \t\r\n\U{0b}<|>&;()"
    else if t.kind == '+' then t.text == ">>"
    else t.kind in "<|>&;()" && t.text == [t.kind]
  }

  lemma {:induction false} WordPlain(s: string)
    ensures forall i :: 0 <= i < WordLen(s) ==> s[i] !in " \t\r\n\U{0b}<|>&;()"
  {
    if WordLen(s) > 0 {
      WordPlain(s[1..]);
      forall i | 0 <= i < WordLen(s)
        ensures s[i] !in " \t\r\n\U{0b}<|>&;()"
      {
        if i > 0 {
          assert s[i] == s[1..][i - 1];
        }
      }
    }
  }

  lemma GotTok(s: string)
    ensures var t := GetToken(s);
            && (t.kind == '\0' <==> Skip(s) == "")
            && (t.kind != '\0' ==> IsTok(Tok(t.kind, t.text)) && t.text[0] == Skip(s)[0])
  {
    if Skip(s) != "" {
      WordPlain(Skip(s));
    }
  }

  predicate Starts(ts: seq<Tok>, kinds: string) {
    ts != [] && ts[0].kind in kinds
  }

  /** The first token is what gettoken and peek see. */
  lemma Head(s: string)
    ensures var t, ts := GetToken(s), Toks(s);
            && (ts == [] <==> t.kind == '\0') && (ts == [] <==> Skip(s) == "")
            && (ts != [] ==> ts == [Tok(t.kind, t.text)] + Toks(t.rest) && IsTok(ts[0]))
    ensures Toks(Skip(s)) == Toks(s)
    ensures forall x :: Peek(s, x) <==> Toks(s) != [] && Toks(s)[0].text[0] in x
  {
    GotTok(s);
    TokenSkip(s);
  }

  lemma Peeks(s: string)
    ensures forall c :: c in "|&;()" ==> (Peek(s, [c]) <==> Starts(Toks(s), [c]))
    ensures Peek(s, "<>") <==> Starts(Toks(s), "<>+")
    ensures Peek(s, "|)&;") <==> Starts(Toks(s), "|)&;")
  {
    Head(s);
    hide Peek, Skip, GetToken, Toks;
  }

  // ---------- the parse depends on the tokens alone ----------

  lemma SameHead(s: string, t: string)
    requires Toks(s) == Toks(t)
    ensures GetToken(s).kind == GetToken(t).kind && (GetToken(s).kind != '\0' ==> GetToken(s).text == GetToken(t).text)
    ensures Toks(GetToken(s).rest) == Toks(GetToken(t).rest) && Toks(Skip(s)) == Toks(Skip(t))
    ensures forall x :: Peek(s, x) <==> Peek(t, x)
  {
    Head(s);
    Head(t);
    AtEnd(s);
    AtEnd(t);
    hide Peek, Skip, GetToken, Toks;
    if Toks(s) != [] {
      assert Toks(GetToken(s).rest) == Toks(s)[1..] == Toks(t)[1..] == Toks(GetToken(t).rest);
    }
  }

  lemma AtEnd(s: string)
    ensures GetToken(s).kind == '\0' ==> GetToken(s).rest == ""
  {
  }

  /** The same error, or the same value with the same tokens left. */
  ghost predicate Same<T(!new)>(p: Parsed<T>, q: Parsed<T>) {
    if p.Panic? then p == q else q.Ok? && p.value == q.value && Toks(p.rest) == Toks(q.rest)
  }

  lemma {:induction false} SameRedirs(s: string, t: string)
    requires Toks(s) == Toks(t)
    ensures Same(ParseRedirs(s), ParseRedirs(t))
    decreases |s|
  {
    hide Peek, Skip, GetToken, Toks;
    SameHead(s, t);
    if Peek(s, "<>") {
      var p, q := GetToken(s), GetToken(t);
      SameHead(p.rest, q.rest);
      if GetToken(p.rest).kind == 'a' {
        SameRedirs(GetToken(p.rest).rest, GetToken(q.rest).rest);
      }
    }
  }

  lemma {:induction false} SameArgs(s: string, t: string, args: seq<string>, redirs: seq<(string, Mode)>)
    requires Toks(s) == Toks(t)
    ensures Same(ParseArgs(s, args, redirs), ParseArgs(t, args, redirs))
    decreases |s|
  {
    hide Peek, Skip, GetToken, Toks, ParseRedirs, Wrap;
    SameHead(s, t);
    var p, q := GetToken(s), GetToken(t);
    SameRedirs(p.rest, q.rest);
    if !Peek(s, "|)&;") && p.kind == 'a' && |args| + 1 < MAXARGS && ParseRedirs(p.rest).Ok? {
      var more := ParseRedirs(p.rest);
      SameArgs(more.rest, ParseRedirs(q.rest).rest, args + [p.text], redirs + more.value);
    }
  }

  lemma {:induction false} SameExec(s: string, t: string)
    requires Toks(s) == Toks(t)
    ensures Same(ParseExec(s), ParseExec(t))
    decreases |s|, 1
  {
    hide Peek, Skip, GetToken, Toks, ParseRedirs, ParseArgs, ParseBlock;
    SameHead(s, t);
    if Peek(s, "(") {
      SameBlock(s, t);
    } else {
      SameRedirs(s, t);
      if ParseRedirs(s).Ok? {
        SameArgs(ParseRedirs(s).rest, ParseRedirs(t).rest, [], ParseRedirs(s).value);
      }
    }
  }

  lemma {:induction false} SameBlock(s: string, t: string)
    requires Toks(s) == Toks(t) && Peek(s, "(") && Peek(t, "(")
    ensures Same(ParseBlock(s), ParseBlock(t))
    decreases |s|, 0
  {
    hide Peek, Skip, GetToken, Toks, ParseRedirs, ParseLine, Wrap;
    SameHead(s, t);
    TokenAhead(s);
    SameLine(GetToken(s).rest, GetToken(t).rest);
    var p, q := ParseLine(GetToken(s).rest), ParseLine(GetToken(t).rest);
    if p.Ok? {
      SameHead(p.rest, q.rest);
      SameRedirs(GetToken(p.rest).rest, GetToken(q.rest).rest);
    }
  }

  lemma TokenAhead(s: string)
    ensures forall x :: Peek(s, x) ==> |GetToken(s).rest| < |s|
  {
    Head(s);
  }

  lemma {:induction false} SamePipe(s: string, t: string)
    requires Toks(s) == Toks(t)
    ensures Same(ParsePipe(s), ParsePipe(t))
    decreases |s|, 2
  {
    hide Peek, Skip, GetToken, Toks, ParseExec;
    SameExec(s, t);
    var p, q := ParseExec(s), ParseExec(t);
    if p.Ok? {
      SameHead(p.rest, q.rest);
      TokenAhead(p.rest);
      if Peek(p.rest, "|") {
        SamePipe(GetToken(p.rest).rest, GetToken(q.rest).rest);
      }
    }
  }

  lemma {:induction false} SameBacks(cmd: Cmd<string>, s: string, t: string)
    requires Toks(s) == Toks(t)
    ensures ParseBacks(cmd, s).0 == ParseBacks(cmd, t).0 && Toks(ParseBacks(cmd, s).1) == Toks(ParseBacks(cmd, t).1)
    decreases |s|
  {
    hide Peek, Skip, GetToken, Toks;
    SameHead(s, t);
    TokenAhead(s);
    if Peek(s, "&") {
      SameBacks(Back(cmd), GetToken(s).rest, GetToken(t).rest);
    }
  }

  lemma {:induction false} SameLine(s: string, t: string)
    requires Toks(s) == Toks(t)
    ensures Same(ParseLine(s), ParseLine(t))
    decreases |s|, 3
  {
    hide Peek, Skip, GetToken, Toks, ParsePipe, ParseBacks;
    SamePipe(s, t);
    var p, q := ParsePipe(s), ParsePipe(t);
    if p.Ok? {
      SameBacks(p.value, p.rest, q.rest);
      var u, v := ParseBacks(p.value, p.rest).1, ParseBacks(q.value, q.rest).1;
      SameHead(u, v);
      TokenAhead(u);
      if Peek(u, ";") {
        SameLine(GetToken(u).rest, GetToken(v).rest);
      }
    }
  }

  /** Lines with the same tokens parse the same, errors included. */
  lemma SameTokens(s: string, t: string)
    requires Toks(s) == Toks(t)
    ensures ParseCmd(s) == ParseCmd(t)
  {
    hide Skip, Toks, ParseLine;
    SameLine(s, t);
    if ParseLine(s).Ok? {
      Head(ParseLine(s).rest);
      Head(ParseLine(t).rest);
    }
  }

  // ---------- where a line can be cut ----------

  /** a ends in an odd number of '>'. */
  predicate OddArrows(a: string) {
    a != "" && a[|a| - 1] == '>' && !OddArrows(a[..|a| - 1])
  }

  /** Neither a blank nor a symbol. */
  predicate Plain(c: char) {
    c !in " \t\r\n\U{0b}<|>&;()"
  }

  /** The cut between a and b falls inside a word, or inside >>. */
  predicate Splits(a: string, b: string) {
    a != "" && b != "" && ((Plain(a[|a| - 1]) && Plain(b[0])) || (OddArrows(a) && b[0] == '>'))
  }

  lemma {:induction false} ArrowsBehind(x: string, y: string)
    requires !OddArrows(x) || (y != "" && y[0] != '>')
    ensures OddArrows(x + y) == OddArrows(y)
    decreases |y|
  {
    if y == "" {
      assert x + y == x;
    } else {
      var z := x + y;
      assert z[..|z| - 1] == x + y[..|y| - 1];
      if |y| > 1 || y[0] == '>' {
        ArrowsBehind(x, y[..|y| - 1]);
      }
    }
  }

  /** Dropping whole tokens from the front does not move the cut. */
  lemma SplitsBehind(x: string, y: string, b: string)
    requires y != "" && (!OddArrows(x) || y[0] != '>')
    ensures Splits(x + y, b) == Splits(y, b)
  {
    ArrowsBehind(x, y);
  }

  lemma BlankFront(s: string)
    requires s != "" && IsBlank(s[0])
    ensures Toks(s) == Toks(s[1..])
  {
    Head(s);
    Head(s[1..]);
    assert Skip(s) == Skip(s[1..]);
  }

  function FrontLen(s: string): (k: nat)
    requires s != "" && !IsBlank(s[0])
    ensures 0 < k <= |s|
  {
    if s[0] == '>' then (if |s| > 1 && s[1] == '>' then 2 else 1) else if IsSymbol(s[0]) then 1 else WordLen(s)
  }

  function FrontTok(s: string): Tok
    requires s != "" && !IsBlank(s[0])
  {
    Tok(if s[0] == '>' && FrontLen(s) == 2 then '+' else if IsSymbol(s[0]) then s[0] else 'a', s[..FrontLen(s)])
  }

  lemma TokFront(s: string)
    requires s != "" && !IsBlank(s[0])
    ensures Toks(s) == [FrontTok(s)] + Toks(s[FrontLen(s)..])
  {
    Head(s[FrontLen(s)..]);
    hide Toks;
    Head(s);
    assert Skip(s) == s;
  }

  lemma {:induction false} WordCut(a: string, b: string)
    ensures WordLen(a + b) == if WordLen(a) < |a| then WordLen(a) else |a| + WordLen(b)
  {
    if a == "" {
      assert a + b == b;
    } else {
      assert (a + b)[1..] == a[1..] + b;
      WordCut(a[1..], b);
    }
  }

  /** A front token that is all of a ends in an odd number of arrows only as a single one. */
  lemma FrontArrows(a: string)
    requires a != "" && !IsBlank(a[0])
    ensures var x := a[..FrontLen(a)];
            && (OddArrows(x) <==> x == ">") && (Plain(x[|x| - 1]) <==> Plain(x[0])) && (x == ">" && |a| > 1 ==> a[1] != '>')
  {
    var x := a[..FrontLen(a)];
    WordPlain(a);
    assert OddArrows(">");
    if a[0] == '>' && |x| == 2 {
      assert x == ">>" && x[..1] == ">";
    } else if IsSymbol(a[0]) {
      assert x == [a[0]] && x[..0] == "";
    } else {
      assert x[0] == a[0] && x[|x| - 1] == a[|x| - 1];
    }
  }

  lemma FrontGoesOn(a: string, b: string)
    requires a != "" && !IsBlank(a[0])
    ensures FrontLen(a) < |a| || !Splits(a, b) ==> FrontLen(a + b) == FrontLen(a)
    ensures FrontLen(a) == |a| && Splits(a, b) ==> FrontLen(a + b) > |a|
  {
    WordCut(a, b);
    FrontArrows(a);
    hide OddArrows;
    assert a[..|a|] == a;
    if FrontLen(a) < |a| {
      assert (a + b)[1] == a[1];
    }
  }

  /** The front token of a is the front token of a + b, unless it is all of a and goes on in b. */
  lemma FrontCut(a: string, b: string)
    requires a != "" && !IsBlank(a[0])
    ensures FrontLen(a) < |a| || !Splits(a, b) ==> FrontTok(a + b) == FrontTok(a) && (a + b)[FrontLen(a)..] == a[FrontLen(a)..] + b
    ensures FrontLen(a) == |a| && Splits(a, b) ==> FrontLen(a + b) > |a|
    ensures FrontLen(a) < |a| ==> Splits(a[FrontLen(a)..], b) == Splits(a, b)
  {
    FrontGoesOn(a, b);
    FrontArrows(a);
    var k := FrontLen(a);
    hide FrontLen, OddArrows, Splits;
    assert (a + b)[k..] == a[k..] + b;
    assert (a + b)[..k] == a[..k];
    if k < |a| {
      assert a == a[..k] + a[k..];
      SplitsBehind(a[..k], a[k..], b);
    }
  }

  /** The tokens of a line are those of its two parts, exactly when the cut is not inside a token. */
  lemma {:induction false} CutIff(a: string, b: string)
    ensures Toks(a + b) == Toks(a) + Toks(b) <==> !Splits(a, b)
    decreases |a|
  {
    hide Toks, OddArrows;
    if a == "" {
      Head("");
      assert a + b == b;
    } else if IsBlank(a[0]) {
      BlankFront(a);
      BlankFront(a + b);
      assert (a + b)[1..] == a[1..] + b;
      CutIff(a[1..], b);
      BlankSplits(a, b);
    } else {
      var k := FrontLen(a);
      TokFront(a);
      TokFront(a + b);
      FrontCut(a, b);
      if k < |a| {
        CutIff(a[k..], b);
        assert ([FrontTok(a)] + Toks(a[k..]) + Toks(b))[1..] == Toks(a[k..]) + Toks(b);
      } else {
        Head("");
        assert a[k..] == "" && Toks(a) == [FrontTok(a)];
        assert Splits(a, b) ==> FrontTok(a + b).text != FrontTok(a).text;
        assert !Splits(a, b) ==> a[k..] + b == b;
      }
    }
  }

  lemma BlankSplits(a: string, b: string)
    requires a != "" && IsBlank(a[0])
    ensures Splits(a, b) == Splits(a[1..], b)
  {
    if |a| > 1 {
      assert a == a[..1] + a[1..];
      SplitsBehind(a[..1], a[1..], b);
    }
  }

  // ---------- blanks ----------

  /** Only spaces, tabs, carriage returns, line feeds and vertical tabs. */
  predicate AllBlank(w: string) {
    forall i :: 0 <= i < |w| ==> w[i] == ' ' || w[i] == '\t' || w[i] == '\r' || w[i] == '\n' || w[i] == '\U{0b}'
  }

  lemma {:induction false} BlanksOnly(w: string)
    requires AllBlank(w)
    ensures Toks(w) == []
  {
    if w == "" {
      Head("");
    } else {
      BlankFront(w);
      BlanksOnly(w[1..]);
    }
  }

  /** Blanks between two parts keep their tokens apart. */
  lemma Spaced(a: string, w: string, b: string)
    requires AllBlank(w) && w != ""
    ensures Toks(a + w + b) == Toks(a) + Toks(b)
  {
    BlanksOnly(w);
    CutIff(a, w);
    CutIff(a + w, b);
    assert (a + w)[|a + w| - 1] == w[|w| - 1];
    assert Toks(a) + [] == Toks(a);
  }

  /** Adding blanks leaves the tokens as they are exactly if it is not done inside a word or inside >>. */
  lemma BlanksAddedIff(a: string, w: string, b: string)
    requires AllBlank(w) && w != ""
    ensures Toks(a + w + b) == Toks(a + b) <==> !Splits(a, b)
  {
    Spaced(a, w, b);
    CutIff(a, b);
  }

  /** Blanks at either end, next to a blank or next to a symbol do not change the parse, >> kept whole. */
  lemma BlanksAdded(a: string, w: string, b: string)
    requires AllBlank(w)
    requires a == "" || b == "" || a[|a| - 1] in " \t\r\n\U{0b}<|>&;()" || b[0] in " \t\r\n\U{0b}<|>&;()"
    requires !(OddArrows(a) && b != "" && b[0] == '>')
    ensures ParseCmd(a + w + b) == ParseCmd(a + b)
  {
    hide Toks, ParseCmd, OddArrows, AllBlank;
    if w == "" {
      assert a + w + b == a + b;
    } else {
      BlanksAddedIff(a, w, b);
      SameTokens(a + w + b, a + b);
    }
  }

  /** Any blanks may stand for any others. */
  lemma BlanksReplaced(a: string, v: string, w: string, b: string)
    requires AllBlank(v) && AllBlank(w) && v != "" && w != ""
    ensures ParseCmd(a + v + b) == ParseCmd(a + w + b)
  {
    hide Toks, ParseCmd;
    Spaced(a, v, b);
    Spaced(a, w, b);
    SameTokens(a + v + b, a + w + b);
  }

  /** The newline that gets leaves at the end of a line makes no difference. */
  lemma LineFeed(s: string)
    ensures ParseCmd(s + "\n") == ParseCmd(s)
  {
    hide ParseCmd;
    BlanksAdded(s, "\n", "");
    assert s + "\n" + "" == s + "\n" && s + "" == s;
  }

  // ---------- the tokens spell the line ----------

  function Unblanked(s: string): string {
    if s == "" then "" else (if s[0] in " \t\r\n\U{0b}" then "" else [s[0]]) + Unblanked(s[1..])
  }

  function Texts(ts: seq<Tok>): string {
    if ts == [] then "" else ts[0].text + Texts(ts[1..])
  }

  lemma {:induction false} UnblankedFront(x: string, y: string)
    requires forall i :: 0 <= i < |x| ==> x[i] !in " \t\r\n\U{0b}"
    ensures Unblanked(x + y) == x + Unblanked(y)
  {
    if x == "" {
      assert x + y == y;
    } else {
      assert (x + y)[1..] == x[1..] + y;
      UnblankedFront(x[1..], y);
    }
  }

  /** The tokens are words and symbols, and together they are the line without its blanks. */
  lemma {:induction false} TokensSpell(s: string)
    ensures Texts(Toks(s)) == Unblanked(s)
    ensures forall t :: t in Toks(s) ==> IsTok(t)
    decreases |s|
  {
    hide Toks;
    if s == "" {
      Head(s);
    } else if IsBlank(s[0]) {
      BlankFront(s);
      TokensSpell(s[1..]);
    } else {
      var t, k := FrontTok(s), FrontLen(s);
      TokFront(s);
      Head(s);
      TokensSpell(s[k..]);
      assert s == s[..k] + s[k..];
      UnblankedFront(s[..k], s[k..]);
    }
  }

  // ---------- what a cut inside a token does ----------

  function WordCount(ts: seq<Tok>): nat {
    if ts == [] then 0 else (if ts[0].kind == 'a' then 1 else 0) + WordCount(ts[1..])
  }

  /** A cut inside a word makes two words of it. */
  lemma {:induction false} CutWord(a: string, b: string)
    requires a != "" && b != "" && Plain(a[|a| - 1]) && Plain(b[0])
    ensures WordCount(Toks(a)) + WordCount(Toks(b)) == WordCount(Toks(a + b)) + 1
    decreases |a|
  {
    hide Toks, OddArrows;
    if IsBlank(a[0]) {
      BlankFront(a);
      BlankFront(a + b);
      assert (a + b)[1..] == a[1..] + b;
      CutWord(a[1..], b);
    } else {
      var k := FrontLen(a);
      TokFront(a);
      TokFront(a + b);
      FrontCut(a, b);
      if k < |a| {
        CutWord(a[k..], b);
      } else {
        LastWord(a, b);
      }
    }
  }

  lemma LastWord(a: string, b: string)
    requires a != "" && b != "" && !IsBlank(a[0]) && FrontLen(a) == |a| && Plain(a[|a| - 1]) && Plain(b[0])
    ensures WordCount(Toks(a)) == 1 && WordCount(Toks(b)) == WordCount(Toks(a + b))
  {
    hide Toks, OddArrows;
    FrontArrows(a);
    assert a[..|a|] == a;
    WordCut(a, b);
    TokFront(a);
    TokFront(b);
    TokFront(a + b);
    Head("");
    assert a[|a|..] == "" && (a + b)[FrontLen(a + b)..] == b[FrontLen(b)..];
  }

  lemma {:induction false} LastArrow(a: string)
    requires OddArrows(a)
    ensures Toks(a) != [] && Toks(a)[|Toks(a)| - 1].kind == '>'
    decreases |a|
  {
    hide Toks;
    if IsBlank(a[0]) {
      BlankFront(a);
      assert a == a[..1] + a[1..];
      assert !OddArrows(a[..1]);
      ArrowsBehind(a[..1], a[1..]);
      LastArrow(a[1..]);
    } else {
      var k := FrontLen(a);
      TokFront(a);
      FrontArrows(a);
      assert a == a[..k] + a[k..];
      if k < |a| {
        ArrowsBehind(a[..k], a[k..]);
        LastArrow(a[k..]);
      } else {
        Head("");
        assert a[k..] == "";
      }
    }
  }

  lemma FirstArrow(b: string)
    requires b != "" && b[0] == '>'
    ensures Starts(Toks(b), ">+")
  {
    TokFront(b);
  }
}
