/** The shell's grammar by itself: concrete syntax, the tokens it is written with and the tree it stands for. */
module ShellGrammar {
  import opened Shell
  import opened ShellTokens

  datatype Item = Word(word: string) | Redirect(op: char, file: string)

  datatype Unit = Simple(items: seq<Item>) | Block(line: Line, redirs: seq<Item>)

  datatype Pipeline = One(unit: Unit) | Piped(unit: Unit, right: Pipeline)

  /** A pipeline, a number of `&`, and perhaps a `;` and another line. */
  datatype Line = Last(first: Pipeline, backs: nat) | Then(first: Pipeline, backs: nat, right: Line)

  // ---------- the tokens ----------

  function Symbol(c: char): Tok {
    Tok(c, [c])
  }

  function ItemToks(it: Item): seq<Tok> {
    match it
    case Word(w) => [Tok('a', w)]
    case Redirect(op, file) => [if op == '+' then Tok('+', ">>") else Symbol(op), Tok('a', file)]
  }

  function ItemsToks(items: seq<Item>): seq<Tok> {
    if items == [] then [] else ItemToks(items[0]) + ItemsToks(items[1..])
  }

  function UnitToks(u: Unit): seq<Tok> {
    match u
    case Simple(items) => ItemsToks(items)
    case Block(line, redirs) => [Symbol('(')] + LineToks(line) + [Symbol(')')] + ItemsToks(redirs)
  }

  function PipeToks(p: Pipeline): seq<Tok> {
    match p
    case One(u) => UnitToks(u)
    case Piped(u, right) => UnitToks(u) + [Symbol('|')] + PipeToks(right)
  }

  function Ampersands(n: nat): seq<Tok> {
    if n == 0 then [] else [Symbol('&')] + Ampersands(n - 1)
  }

  function LineToks(l: Line): seq<Tok> {
    match l
    case Last(first, backs) => PipeToks(first) + Ampersands(backs)
    case Then(first, backs, right) => PipeToks(first) + Ampersands(backs) + [Symbol(';')] + LineToks(right)
  }

  // ---------- the tree ----------

  function Words(items: seq<Item>): seq<string> {
    if items == [] then [] else (if items[0].Word? then [items[0].word] else []) + Words(items[1..])
  }

  /** A command under the redirections among items, the last outermost; > and >> do the same. */
  function Redirected(c: Cmd<string>, items: seq<Item>): Cmd<string>
    decreases |items|
  {
    if items == [] then c
    else match items[0]
      case Word(_) => Redirected(c, items[1..])
      case Redirect(op, file) => Redirected(Redir(c, file, if op == '<' then Input else Output), items[1..])
  }

  function UnitTree(u: Unit): Cmd<string> {
    match u
    case Simple(items) => Redirected(Exec(Words(items)), items)
    case Block(line, redirs) => Redirected(LineTree(line), redirs)
  }

  function PipeTree(p: Pipeline): Cmd<string> {
    match p
    case One(u) => UnitTree(u)
    case Piped(u, right) => Pipe(UnitTree(u), PipeTree(right))
  }

  function InBackground(c: Cmd<string>, n: nat): Cmd<string>
    decreases n
  {
    if n == 0 then c else InBackground(Back(c), n - 1)
  }

  function LineTree(l: Line): Cmd<string> {
    match l
    case Last(first, backs) => InBackground(PipeTree(first), backs)
    case Then(first, backs, right) => List(InBackground(PipeTree(first), backs), LineTree(right))
  }

  // ---------- the lines of the language ----------

  predicate ItemsOk(items: seq<Item>) {
    forall i :: 0 <= i < |items| && items[i].Redirect? ==> items[i].op in "<>+"
  }

  predicate OnlyRedirects(items: seq<Item>) {
    forall i :: 0 <= i < |items| ==> items[i].Redirect? && items[i].op in "<>+"
  }

  /** Fewer than MAXARGS words in a command, and only redirections behind a block. */
  predicate UnitOk(u: Unit) {
    match u
    case Simple(items) => ItemsOk(items) && |Words(items)| < MAXARGS
    case Block(line, redirs) => LineOk(line) && OnlyRedirects(redirs)
  }

  predicate PipeOk(p: Pipeline) {
    UnitOk(p.unit) && (p.Piped? ==> PipeOk(p.right))
  }

  predicate LineOk(l: Line) {
    PipeOk(l.first) && (l.Then? ==> LineOk(l.right))
  }

  // ---------- items in parts ----------

  /** The redirections among items, as the parser collects them. */
  function Collected(items: seq<Item>): seq<(string, Mode)> {
    if items == [] then []
    else (match items[0] case Word(_) => [] case Redirect(op, file) => [(file, if op == '<' then Input else Output)]) + Collected(items[1..])
  }

  lemma Cons(it: Item, more: seq<Item>)
    ensures ItemsToks([it] + more) == ItemToks(it) + ItemsToks(more)
    ensures Words([it] + more) == (if it.Word? then [it.word] else []) + Words(more)
    ensures it.Word? ==> Collected([it] + more) == Collected(more)
    ensures it.Redirect? ==> Collected([it] + more) == [(it.file, if it.op == '<' then Input else Output)] + Collected(more)
  {
    assert ([it] + more)[1..] == more;
  }

  lemma Assoc<T>(a: seq<T>, b: seq<T>, c: seq<T>)
    ensures a + b + c == a + (b + c)
  {
  }

  lemma {:induction false} InParts(x: seq<Item>, y: seq<Item>)
    ensures ItemsToks(x + y) == ItemsToks(x) + ItemsToks(y)
    ensures Words(x + y) == Words(x) + Words(y) && Collected(x + y) == Collected(x) + Collected(y)
  {
    hide *;
    if x == [] {
      assert x + y == y;
      Nothing();
    } else {
      InParts(x[1..], y);
      assert x == [x[0]] + x[1..];
      Assoc([x[0]], x[1..], y);
      Cons(x[0], x[1..]);
      Cons(x[0], x[1..] + y);
      ConsParts(x[0], x[1..], y);
    }
  }

  lemma Nothing()
    ensures ItemsToks([]) == [] && Words([]) == [] && Collected([]) == []
  {
  }

  lemma ConsParts(it: Item, x: seq<Item>, y: seq<Item>)
    ensures ItemToks(it) + ItemsToks(x) + ItemsToks(y) == ItemToks(it) + (ItemsToks(x) + ItemsToks(y))
    ensures forall u: seq<string> :: u + Words(x) + Words(y) == u + (Words(x) + Words(y))
    ensures forall u: seq<(string, Mode)> :: u + Collected(x) + Collected(y) == u + (Collected(x) + Collected(y))
  {
    hide *;
  }

  lemma {:induction false} WrapFront(c: Cmd<string>, r: (string, Mode), rs: seq<(string, Mode)>)
    ensures Wrap(c, [r] + rs) == Wrap(Redir(c, r.0, r.1), rs)
    decreases |rs|
  {
    var all := [r] + rs;
    if rs == [] {
      assert all == [r] && all[..0] == [] && Wrap(c, all[..0]) == c;
    } else {
      assert all[..|all| - 1] == [r] + rs[..|rs| - 1];
      WrapFront(c, r, rs[..|rs| - 1]);
    }
  }

  lemma {:induction false} WrapIsRedirected(c: Cmd<string>, items: seq<Item>)
    ensures Wrap(c, Collected(items)) == Redirected(c, items)
    decreases |items|
  {
    if items != [] {
      if items[0].Word? {
        assert Collected(items) == Collected(items[1..]);
        WrapIsRedirected(c, items[1..]);
      } else {
        var r := (items[0].file, if items[0].op == '<' then Input else Output);
        WrapFront(c, r, Collected(items[1..]));
        WrapIsRedirected(Redir(c, r.0, r.1), items[1..]);
      }
    }
  }

  // ---------- what is accepted is in the language ----------

  lemma {:induction false} RedirsSound(s: string) returns (items: seq<Item>)
    requires ParseRedirs(s).Ok?
    ensures OnlyRedirects(items) && Collected(items) == ParseRedirs(s).value && Words(items) == []
    ensures Toks(s) == ItemsToks(items) + Toks(ParseRedirs(s).rest)
    decreases |s|
  {
    hide Peek, Skip, GetToken, Toks, ItemsToks, Words, Collected;
    items := [];
    Nothing();
    if !Peek(s, "<>") {
      Head(s);
    } else {
      var op := GetToken(s);
      var file := GetToken(op.rest);
      var it := RedirAhead(s);
      var more := RedirsSound(file.rest);
      items := [it] + more;
      Cons(it, more);
      Assoc(ItemToks(it), ItemsToks(more), Toks(ParseRedirs(file.rest).rest));
    }
  }

  lemma RedirAhead(s: string) returns (it: Item)
    requires Peek(s, "<>") && GetToken(GetToken(s).rest).kind == 'a'
    ensures var op := GetToken(s);
            var file := GetToken(op.rest);
            && it == Redirect(op.kind, file.text) && op.kind in "<>+" && Toks(s) == ItemToks(it) + Toks(file.rest)
            && |file.rest| < |s|
  {
    hide Peek, Skip, GetToken, Toks;
    var op := GetToken(s);
    var file := GetToken(op.rest);
    Head(s);
    Peeks(s);
    Head(op.rest);
    it := Redirect(op.kind, file.text);
    assert Toks(s)[0] == Tok(op.kind, op.text);
    assert ItemToks(it) == [Tok(op.kind, op.text)] + [Tok('a', file.text)];
  }

  lemma {:induction false} ArgsSound(s: string, args: seq<string>, redirs: seq<(string, Mode)>) returns (items: seq<Item>)
    requires |args| < MAXARGS && ParseArgs(s, args, redirs).Ok?
    ensures ItemsOk(items) && |args| + |Words(items)| < MAXARGS && Toks(s) == ItemsToks(items) + Toks(ParseArgs(s, args, redirs).rest)
    ensures ParseArgs(s, args, redirs).value == Wrap(Exec(args + Words(items)), redirs + Collected(items))
    decreases |s|
  {
    hide Peek, Skip, GetToken, Toks, ParseRedirs, Wrap, ItemsToks, Words, Collected;
    Head(s);
    AtEnd(s);
    var t := GetToken(s);
    if Peek(s, "|)&;") || t.kind == '\0' {
      items := [];
      Nothing();
      Head("");
      assert args + [] == args && redirs + [] == redirs;
    } else {
      var more := ParseRedirs(t.rest);
      var near := RedirsSound(t.rest);
      var rest := ArgsSound(more.rest, args + [t.text], redirs + more.value);
      items := [Word(t.text)] + (near + rest);
      Cons(Word(t.text), near + rest);
      InParts(near, rest);
      assert Words(items) == [t.text] + Words(rest) && Collected(items) == more.value + Collected(rest);
      Assoc(args, [t.text], Words(rest));
      Assoc(redirs, more.value, Collected(rest));
      ArgToks(t.text, near, rest, ParseArgs(s, args, redirs).rest);
    }
  }

  lemma ArgToks(w: string, near: seq<Item>, rest: seq<Item>, u: string)
    ensures ItemToks(Word(w)) + (ItemsToks(near) + ItemsToks(rest)) + Toks(u) == [Tok('a', w)] + (ItemsToks(near) + (ItemsToks(rest) + Toks(u)))
  {
    hide ItemsToks, Toks;
  }

  lemma SimpleSound(s: string) returns (u: Unit)
    requires !Peek(s, "(") && ParseExec(s).Ok?
    ensures UnitOk(u) && UnitTree(u) == ParseExec(s).value && Toks(s) == UnitToks(u) + Toks(ParseExec(s).rest)
  {
    hide Peek, Skip, GetToken, Toks, ParseRedirs, ParseArgs, Wrap, ItemsToks, Words, Collected, Redirected;
    var first := ParseRedirs(s);
    var near := RedirsSound(s);
    var rest := ArgsSound(first.rest, [], first.value);
    u := Simple(near + rest);
    InParts(near, rest);
    assert [] + Words(rest) == Words(near + rest);
    WrapIsRedirected(Exec(Words(near + rest)), near + rest);
    Assoc(ItemsToks(near), ItemsToks(rest), Toks(ParseExec(s).rest));
  }

  lemma {:induction false} UnitSound(s: string) returns (u: Unit)
    requires ParseExec(s).Ok?
    ensures UnitOk(u) && UnitTree(u) == ParseExec(s).value && Toks(s) == UnitToks(u) + Toks(ParseExec(s).rest)
    decreases |s|, 0
  {
    if !Peek(s, "(") {
      u := SimpleSound(s);
    } else {
      hide Peek, Skip, GetToken, Toks, ParseRedirs, ParseLine, Wrap, ItemsToks, Words, Collected, Redirected, LineToks, LineTree, LineOk;
      var t := GetToken(s);
      Head(s);
      Peeks(s);
      TokenAhead(s);
      var l := LineSound(t.rest);
      var line := ParseLine(t.rest);
      Head(line.rest);
      Peeks(line.rest);
      var redirs := RedirsSound(GetToken(line.rest).rest);
      u := Block(l, redirs);
      WrapIsRedirected(line.value, redirs);
      BlockToks(l, redirs, ParseExec(s).rest);
    }
  }

  lemma BlockToks(l: Line, redirs: seq<Item>, u: string)
    ensures UnitToks(Block(l, redirs)) + Toks(u) == [Symbol('(')] + (LineToks(l) + ([Symbol(')')] + (ItemsToks(redirs) + Toks(u))))
  {
    hide LineToks, ItemsToks, Toks;
  }

  lemma {:induction false} PipeSound(s: string) returns (p: Pipeline)
    requires ParsePipe(s).Ok?
    ensures PipeOk(p) && PipeTree(p) == ParsePipe(s).value && Toks(s) == PipeToks(p) + Toks(ParsePipe(s).rest)
    decreases |s|, 1
  {
    hide Peek, Skip, GetToken, Toks, ParseExec, UnitOk, UnitTree, UnitToks;
    var left := ParseExec(s);
    var u := UnitSound(s);
    Head(left.rest);
    if !Peek(left.rest, "|") {
      p := One(u);
    } else {
      Peeks(left.rest);
      TokenAhead(left.rest);
      var right := PipeSound(GetToken(left.rest).rest);
      p := Piped(u, right);
      Assoc(UnitToks(u) + [Symbol('|')], PipeToks(right), Toks(ParsePipe(s).rest));
      Assoc(UnitToks(u), [Symbol('|')], PipeToks(right) + Toks(ParsePipe(s).rest));
    }
  }

  lemma {:induction false} BacksSound(c: Cmd<string>, s: string) returns (n: nat)
    ensures var r := ParseBacks(c, s); r.0 == InBackground(c, n) && Toks(s) == Ampersands(n) + Toks(r.1)
    decreases |s|
  {
    hide Peek, Skip, GetToken, Toks;
    n := 0;
    Head(s);
    if Peek(s, "&") {
      Peeks(s);
      TokenAhead(s);
      var m := BacksSound(Back(c), GetToken(s).rest);
      n := m + 1;
      Assoc([Symbol('&')], Ampersands(m), Toks(ParseBacks(c, s).1));
    }
  }

  lemma {:induction false} LineSound(s: string) returns (l: Line)
    requires ParseLine(s).Ok?
    ensures LineOk(l) && LineTree(l) == ParseLine(s).value && Toks(s) == LineToks(l) + Toks(ParseLine(s).rest)
    decreases |s|, 2
  {
    hide Peek, Skip, GetToken, Toks, ParsePipe, ParseBacks, PipeOk, PipeTree, PipeToks, InBackground, Ampersands;
    var first := ParsePipe(s);
    var p := PipeSound(s);
    var n := BacksSound(first.value, first.rest);
    var rest := ParseBacks(first.value, first.rest).1;
    Assoc(PipeToks(p), Ampersands(n), Toks(rest));
    Head(rest);
    if !Peek(rest, ";") {
      l := Last(p, n);
    } else {
      Peeks(rest);
      TokenAhead(rest);
      var right := LineSound(GetToken(rest).rest);
      l := Then(p, n, right);
      var x := PipeToks(p) + Ampersands(n);
      Assoc(x + [Symbol(';')], LineToks(right), Toks(ParseLine(s).rest));
      Assoc(x, [Symbol(';')], LineToks(right) + Toks(ParseLine(s).rest));
    }
  }

  // ---------- what is in the language is accepted ----------

  /** Nothing is left, or a token of one of these kinds. */
  predicate Stops(ts: seq<Tok>, kinds: string) {
    ts == [] || ts[0].kind in kinds
  }

  lemma {:induction false} RedirsComplete(s: string, items: seq<Item>, ts: seq<Tok>)
    requires OnlyRedirects(items) && Toks(s) == ItemsToks(items) + ts && !Starts(ts, "<>+")
    ensures var r := ParseRedirs(s); r.Ok? && r.value == Collected(items) && Toks(r.rest) == ts
    decreases |items|
  {
    hide Peek, Skip, GetToken, Toks, ItemsToks, Collected;
    Head(s);
    Peeks(s);
    Nothing();
    if items == [] {
      assert ItemsToks(items) + ts == ts;
    } else {
      var it := items[0];
      assert items == [it] + items[1..];
      Cons(it, items[1..]);
      Assoc(ItemToks(it), ItemsToks(items[1..]), ts);
      RedirRead(s, it, ItemsToks(items[1..]) + ts);
      RedirsComplete(GetToken(GetToken(s).rest).rest, items[1..], ts);
    }
  }

  lemma RedirRead(s: string, it: Item, ts: seq<Tok>)
    requires it.Redirect? && it.op in "<>+" && Toks(s) == ItemToks(it) + ts
    ensures var op := GetToken(s);
            var file := GetToken(op.rest);
            Peek(s, "<>") && op.kind == it.op && file.kind == 'a' && file.text == it.file && Toks(file.rest) == ts
  {
    hide Peek, Skip, GetToken, Toks;
    Head(s);
    Peeks(s);
    var op := GetToken(s);
    assert Toks(s)[0] == ItemToks(it)[0] && Toks(op.rest) == Toks(s)[1..] == [ItemToks(it)[1]] + ts;
    Head(op.rest);
    assert Toks(GetToken(op.rest).rest) == Toks(op.rest)[1..] == ts;
  }

  /** How many redirections stand in front. */
  function Lead(items: seq<Item>): (k: nat)
    ensures k <= |items| && (k < |items| ==> items[k].Word?)
    ensures forall i :: 0 <= i < k ==> items[i].Redirect?
  {
    if items == [] || items[0].Word? then 0 else 1 + Lead(items[1..])
  }

  /** The tokens of a run of items that does not begin with a redirection. */
  lemma NoRedirAhead(items: seq<Item>, ts: seq<Tok>)
    requires (items == [] || items[0].Word?) && Stops(ts, "|)&;")
    ensures !Starts(ItemsToks(items) + ts, "<>+")
  {
    if items == [] {
      assert ItemsToks(items) + ts == ts;
    }
  }

  lemma RedirsThen(s: string, items: seq<Item>, ts: seq<Tok>)
    requires ItemsOk(items) && Toks(s) == ItemsToks(items) + ts && Stops(ts, "|)&;")
    ensures var r, k := ParseRedirs(s), Lead(items);
            r.Ok? && r.value == Collected(items[..k]) && Toks(r.rest) == ItemsToks(items[k..]) + ts && Words(items[..k]) == []
  {
    hide Toks, ItemsToks, Collected, ParseRedirs, Words, Starts;
    var k := Lead(items);
    assert items == items[..k] + items[k..];
    InParts(items[..k], items[k..]);
    Assoc(ItemsToks(items[..k]), ItemsToks(items[k..]), ts);
    NoRedirAhead(items[k..], ts);
    NoWords(items[..k]);
    RedirsComplete(s, items[..k], ItemsToks(items[k..]) + ts);
  }

  lemma {:induction false} NoWords(items: seq<Item>)
    requires forall i :: 0 <= i < |items| ==> items[i].Redirect?
    ensures Words(items) == []
  {
    if items != [] {
      NoWords(items[1..]);
    }
  }

  lemma WordRead(s: string, w: string, ts: seq<Tok>)
    requires Toks(s) == [Tok('a', w)] + ts
    ensures !Peek(s, "|)&;") && GetToken(s).kind == 'a' && GetToken(s).text == w && Toks(GetToken(s).rest) == ts
  {
    hide Peek, Skip, GetToken, Toks;
    Head(s);
    Peeks(s);
    assert Toks(GetToken(s).rest) == Toks(s)[1..] == ts;
  }

  lemma LeadParts(items: seq<Item>)
    ensures var k := Lead(items); Words(items) == Words(items[k..]) && Collected(items) == Collected(items[..k]) + Collected(items[k..])
  {
    hide Words, Collected, ItemsToks;
    var k := Lead(items);
    assert items == items[..k] + items[k..];
    InParts(items[..k], items[k..]);
    NoWords(items[..k]);
    assert [] + Words(items[k..]) == Words(items[k..]);
  }

  lemma ArgsEnd(s: string, args: seq<string>, redirs: seq<(string, Mode)>)
    requires Stops(Toks(s), "|)&;")
    ensures var r := ParseArgs(s, args, redirs); r.Ok? && r.value == Wrap(Exec(args), redirs) && Toks(r.rest) == Toks(s)
  {
    hide Peek, Skip, GetToken, Toks, Wrap;
    Head(s);
    AtEnd(s);
    Peeks(s);
    Head("");
  }

  /** A word and the redirections behind it are read. */
  lemma ArgRead(s: string, items: seq<Item>, ts: seq<Tok>, args: seq<string>, redirs: seq<(string, Mode)>)
    requires ItemsOk(items) && items != [] && items[0].Word? && |args| + 1 < MAXARGS
    requires Toks(s) == ItemsToks(items) + ts && Stops(ts, "|)&;")
    ensures var k := Lead(items[1..]);
            var r := ParseRedirs(GetToken(s).rest);
            && r.Ok? && r.value == Collected(items[1..][..k]) && Toks(r.rest) == ItemsToks(items[1..][k..]) + ts
            && ParseArgs(s, args, redirs) == ParseArgs(r.rest, args + [items[0].word], redirs + r.value)
  {
    hide Peek, Skip, GetToken, Toks, ParseRedirs, Wrap, ItemsToks, Words, Collected, Lead;
    var w, more := items[0].word, items[1..];
    assert items == [Word(w)] + more;
    Cons(Word(w), more);
    Assoc([Tok('a', w)], ItemsToks(more), ts);
    WordRead(s, w, ItemsToks(more) + ts);
    RedirsThen(GetToken(s).rest, more, ts);
  }

  lemma {:induction false} ArgsComplete(s: string, items: seq<Item>, ts: seq<Tok>, args: seq<string>, redirs: seq<(string, Mode)>)
    requires ItemsOk(items) && (items == [] || items[0].Word?) && |args| + |Words(items)| < MAXARGS
    requires Toks(s) == ItemsToks(items) + ts && Stops(ts, "|)&;")
    ensures var r := ParseArgs(s, args, redirs);
            r.Ok? && r.value == Wrap(Exec(args + Words(items)), redirs + Collected(items)) && Toks(r.rest) == ts
    decreases |items|
  {
    hide Peek, Skip, GetToken, Toks, ParseRedirs, ParseArgs, Wrap, ItemsToks, Words, Collected, Stops;
    if items == [] {
      Nothing();
      assert [] + ts == ts;
      ArgsEnd(s, args, redirs);
      assert args + [] == args && redirs + [] == redirs;
    } else {
      var w, more := items[0].word, items[1..];
      var rest := more[Lead(more)..];
      assert items == [Word(w)] + more;
      Cons(Word(w), more);
      LeadParts(more);
      ArgRead(s, items, ts, args, redirs);
      var r := ParseRedirs(GetToken(s).rest);
      ArgsComplete(r.rest, rest, ts, args + [w], redirs + r.value);
      Assoc(args, [w], Words(rest));
      Assoc(redirs, r.value, Collected(rest));
    }
  }

  lemma SimpleComplete(s: string, items: seq<Item>, ts: seq<Tok>)
    requires UnitOk(Simple(items)) && Toks(s) == ItemsToks(items) + ts && Stops(ts, "|)&;")
    ensures var r := ParseExec(s); r.Ok? && r.value == UnitTree(Simple(items)) && Toks(r.rest) == ts
  {
    hide Peek, Skip, GetToken, Toks, ParseRedirs, ParseArgs, Wrap, ItemsToks, Words, Collected, Redirected, Stops;
    NoParenAhead(s, items, ts);
    LeadParts(items);
    RedirsThen(s, items, ts);
    var rest := items[Lead(items)..];
    ArgsComplete(ParseRedirs(s).rest, rest, ts, [], ParseRedirs(s).value);
    assert [] + Words(rest) == Words(items);
    WrapIsRedirected(Exec(Words(items)), items);
  }

  lemma NoParenAhead(s: string, items: seq<Item>, ts: seq<Tok>)
    requires ItemsOk(items) && Toks(s) == ItemsToks(items) + ts && Stops(ts, "|)&;")
    ensures !Peek(s, "(")
  {
    Peeks(s);
    hide Peek, Toks;
    if items == [] {
      assert Toks(s) == ts;
    }
  }

  lemma {:induction false} UnitComplete(s: string, u: Unit, ts: seq<Tok>)
    requires UnitOk(u) && Toks(s) == UnitToks(u) + ts && Stops(ts, "|)&;")
    ensures var r := ParseExec(s); r.Ok? && r.value == UnitTree(u) && Toks(r.rest) == ts
    decreases u
  {
    match u
    case Simple(items) => SimpleComplete(s, items, ts);
    case Block(l, redirs) =>
      hide Peek, Skip, GetToken, Toks, ParseRedirs, ParseLine, Wrap, ItemsToks, Collected, Redirected, LineToks, LineTree, LineOk;
      var after := [Symbol(')')] + (ItemsToks(redirs) + ts);
      BlockRead(s, l, redirs, ts);
      LineComplete(GetToken(s).rest, l, after);
      BlockEnd(s, redirs, ts);
  }

  lemma BlockEnd(s: string, redirs: seq<Item>, ts: seq<Tok>)
    requires Peek(s, "(") && ParseLine(GetToken(s).rest).Ok? && OnlyRedirects(redirs) && Stops(ts, "|)&;")
    requires Toks(ParseLine(GetToken(s).rest).rest) == [Symbol(')')] + (ItemsToks(redirs) + ts)
    ensures var r := ParseExec(s); r.Ok? && r.value == Redirected(ParseLine(GetToken(s).rest).value, redirs) && Toks(r.rest) == ts
  {
    hide Peek, Skip, GetToken, Toks, ParseRedirs, ParseLine, Wrap, ItemsToks, Collected, Redirected;
    var line := ParseLine(GetToken(s).rest);
    SymbolRead(line.rest, ')', ItemsToks(redirs) + ts);
    RedirsComplete(GetToken(line.rest).rest, redirs, ts);
    WrapIsRedirected(line.value, redirs);
  }

  lemma SymbolRead(s: string, c: char, ts: seq<Tok>)
    requires c in "|&;()" && Toks(s) == [Symbol(c)] + ts
    ensures Peek(s, [c]) && Toks(GetToken(s).rest) == ts
  {
    hide Peek, Skip, GetToken, Toks;
    Head(s);
    Peeks(s);
    assert Toks(GetToken(s).rest) == Toks(s)[1..] == ts;
  }

  lemma BlockRead(s: string, l: Line, redirs: seq<Item>, ts: seq<Tok>)
    requires Toks(s) == UnitToks(Block(l, redirs)) + ts
    ensures Peek(s, "(") && Toks(GetToken(s).rest) == LineToks(l) + ([Symbol(')')] + (ItemsToks(redirs) + ts))
  {
    hide Peek, Skip, GetToken, Toks, LineToks, ItemsToks;
    Head(s);
    Peeks(s);
    assert Toks(s) == [Symbol('(')] + (LineToks(l) + ([Symbol(')')] + (ItemsToks(redirs) + ts)));
    assert Toks(GetToken(s).rest) == Toks(s)[1..];
  }

  lemma {:induction false} PipeComplete(s: string, p: Pipeline, ts: seq<Tok>)
    requires PipeOk(p) && Toks(s) == PipeToks(p) + ts && Stops(ts, ")&;")
    ensures var r := ParsePipe(s); r.Ok? && r.value == PipeTree(p) && Toks(r.rest) == ts
    decreases p
  {
    hide Peek, Skip, GetToken, Toks, ParseExec, UnitOk, UnitTree, UnitToks;
    if p.One? {
      UnitComplete(s, p.unit, ts);
      Head(ParseExec(s).rest);
      Peeks(ParseExec(s).rest);
    } else {
      var after := [Symbol('|')] + (PipeToks(p.right) + ts);
      assert Toks(s) == UnitToks(p.unit) + after;
      UnitComplete(s, p.unit, after);
      var bar := ParseExec(s).rest;
      Head(bar);
      Peeks(bar);
      assert Toks(GetToken(bar).rest) == after[1..] == PipeToks(p.right) + ts;
      PipeComplete(GetToken(bar).rest, p.right, ts);
    }
  }

  lemma {:induction false} BacksComplete(c: Cmd<string>, s: string, n: nat, ts: seq<Tok>)
    requires Toks(s) == Ampersands(n) + ts && Stops(ts, ");")
    ensures var r := ParseBacks(c, s); r.0 == InBackground(c, n) && Toks(r.1) == ts
    decreases n
  {
    hide Peek, Skip, GetToken, Toks;
    Head(s);
    Peeks(s);
    if n > 0 {
      assert Toks(s) == [Symbol('&')] + (Ampersands(n - 1) + ts);
      assert Toks(GetToken(s).rest) == Toks(s)[1..];
      BacksComplete(Back(c), GetToken(s).rest, n - 1, ts);
    }
  }

  lemma AfterPipe(n: nat, ts: seq<Tok>)
    requires Stops(ts, ");")
    ensures Stops(Ampersands(n) + ts, ")&;")
  {
    if n == 0 {
      assert Ampersands(n) + ts == ts;
    }
  }

  lemma {:induction false} LineComplete(s: string, l: Line, ts: seq<Tok>)
    requires LineOk(l) && Toks(s) == LineToks(l) + ts && Stops(ts, ")")
    ensures var r := ParseLine(s); r.Ok? && r.value == LineTree(l) && Toks(r.rest) == ts
    decreases l
  {
    hide Peek, Skip, GetToken, Toks, ParsePipe, ParseBacks, PipeOk, PipeTree, PipeToks, InBackground, Ampersands;
    var p, n := l.first, l.backs;
    var after := if l.Last? then ts else [Symbol(';')] + (LineToks(l.right) + ts);
    assert Toks(s) == PipeToks(p) + (Ampersands(n) + after);
    AfterPipe(n, after);
    PipeComplete(s, p, Ampersands(n) + after);
    var first := ParsePipe(s);
    BacksComplete(first.value, first.rest, n, after);
    var rest := ParseBacks(first.value, first.rest).1;
    Head(rest);
    Peeks(rest);
    if l.Then? {
      assert Toks(GetToken(rest).rest) == after[1..] == LineToks(l.right) + ts;
      LineComplete(GetToken(rest).rest, l.right, ts);
    }
  }

  /** The line is written as the grammar says, and stands for c. */
  ghost predicate Derives(s: string, c: Cmd<string>) {
    exists l :: LineOk(l) && LineToks(l) == Toks(s) && LineTree(l) == c
  }

  /** The parser accepts exactly the lines of the grammar, and gives each the grammar's tree. */
  lemma GrammarIff(s: string, c: Cmd<string>)
    ensures ParseCmd(s) == Ok(c, "") <==> Derives(s, c)
  {
    hide Skip, Toks, ParseLine, LineOk, LineTree, LineToks;
    if ParseCmd(s) == Ok(c, "") {
      var l := LineSound(s);
      Head(ParseLine(s).rest);
      assert LineToks(l) + [] == LineToks(l);
    }
    forall l | LineOk(l) && LineToks(l) == Toks(s)
      ensures ParseCmd(s) == Ok(LineTree(l), "")
    {
      assert LineToks(l) + [] == LineToks(l);
      LineComplete(s, l, []);
      Head(ParseLine(s).rest);
    }
  }

  lemma NothingLeft(s: string)
    ensures ParseCmd(s).Ok? ==> ParseCmd(s).rest == ""
  {
    hide ParseLine;
  }

  /** A line stands for at most one tree, the one the parser gives it. */
  lemma DerivedAlone(s: string)
    ensures forall c :: Derives(s, c) <==> ParseCmd(s).Ok? && c == ParseCmd(s).value
  {
    hide Derives, ParseCmd;
    NothingLeft(s);
    forall c
      ensures Derives(s, c) <==> ParseCmd(s).Ok? && c == ParseCmd(s).value
    {
      GrammarIff(s, c);
    }
  }

  // ---------- blanks in an accepted line ----------

  function WordsIn(c: Cmd<string>): nat {
    match c
    case Exec(argv) => |argv|
    case Redir(cmd, _, _) => WordsIn(cmd) + 1
    case Pipe(left, right) => WordsIn(left) + WordsIn(right)
    case List(left, right) => WordsIn(left) + WordsIn(right)
    case Back(cmd) => WordsIn(cmd)
  }

  /** Every redirection is followed by its file. */
  predicate FilesFollow(ts: seq<Tok>) {
    forall i :: 0 <= i < |ts| && ts[i].kind in "<>+" ==> i + 1 < |ts| && ts[i + 1].kind == 'a'
  }

  lemma {:induction false} TokensInParts(x: seq<Tok>, y: seq<Tok>)
    ensures WordCount(x + y) == WordCount(x) + WordCount(y)
    ensures FilesFollow(x) && FilesFollow(y) ==> FilesFollow(x + y)
  {
    if x == [] {
      assert x + y == y;
    } else {
      assert (x + y)[1..] == x[1..] + y;
      TokensInParts(x[1..], y);
    }
  }

  /** The tokens name as many words as the tree, and files follow redirections. */
  ghost predicate Counted(ts: seq<Tok>, n: nat) {
    WordCount(ts) == n && FilesFollow(ts)
  }

  lemma CountedMore(x: seq<Tok>, m: nat, y: seq<Tok>, n: nat)
    requires Counted(x, m) && Counted(y, n)
    ensures Counted(x + y, m + n)
  {
    TokensInParts(x, y);
  }

  lemma SymbolCounted(c: char)
    requires c in "|&;()"
    ensures Counted([Symbol(c)], 0)
  {
    assert [Symbol(c)][1..] == [];
  }

  lemma ItemCounted(it: Item)
    requires it.Redirect? ==> it.op in "<>+"
    ensures Counted(ItemToks(it), 1)
  {
    var ts := ItemToks(it);
    if it.Redirect? {
      assert ts[1..] == [Tok('a', it.file)] && ts[1..][1..] == [];
      assert WordCount(ts[1..]) == 1 && ts[0].kind == it.op;
    } else {
      assert ts[1..] == [];
    }
  }

  lemma {:induction false} ItemsCounted(items: seq<Item>)
    requires ItemsOk(items)
    ensures Counted(ItemsToks(items), |items|)
  {
    hide Counted;
    if items == [] {
      assert Counted([], 0) by {
        NothingCounted();
      }
    } else {
      ItemCounted(items[0]);
      ItemsCounted(items[1..]);
      CountedMore(ItemToks(items[0]), 1, ItemsToks(items[1..]), |items| - 1);
    }
  }

  lemma NothingCounted()
    ensures Counted([], 0)
  {
  }

  lemma {:induction false} RedirectedWords(c: Cmd<string>, items: seq<Item>)
    ensures WordsIn(Redirected(c, items)) + |Words(items)| == WordsIn(c) + |items|
    decreases |items|
  {
    if items != [] {
      match items[0]
      case Word(_) => RedirectedWords(c, items[1..]);
      case Redirect(op, file) => RedirectedWords(Redir(c, file, if op == '<' then Input else Output), items[1..]);
    }
  }

  lemma {:induction false} UnitCounted(u: Unit)
    requires UnitOk(u)
    ensures Counted(UnitToks(u), WordsIn(UnitTree(u)))
    decreases u
  {
    hide Counted, LineToks, LineTree, LineOk, ItemsToks, Redirected, Words;
    match u
    case Simple(items) =>
      ItemsCounted(items);
      RedirectedWords(Exec(Words(items)), items);
    case Block(l, redirs) =>
      LineCounted(l);
      SymbolCounted('(');
      SymbolCounted(')');
      ItemsCounted(redirs);
      NoWords(redirs);
      RedirectedWords(LineTree(l), redirs);
      var n := WordsIn(LineTree(l));
      CountedMore([Symbol('(')], 0, LineToks(l), n);
      CountedMore([Symbol('(')] + LineToks(l), n, [Symbol(')')], 0);
      CountedMore([Symbol('(')] + LineToks(l) + [Symbol(')')], n, ItemsToks(redirs), |redirs|);
  }

  lemma {:induction false} PipeCounted(p: Pipeline)
    requires PipeOk(p)
    ensures Counted(PipeToks(p), WordsIn(PipeTree(p)))
    decreases p
  {
    hide Counted, UnitToks, UnitTree, UnitOk;
    UnitCounted(p.unit);
    if p.Piped? {
      SymbolCounted('|');
      PipeCounted(p.right);
      CountedMore(UnitToks(p.unit), WordsIn(UnitTree(p.unit)), [Symbol('|')], 0);
      CountedMore(UnitToks(p.unit) + [Symbol('|')], WordsIn(UnitTree(p.unit)), PipeToks(p.right), WordsIn(PipeTree(p.right)));
    }
  }

  lemma {:induction false} BacksCounted(c: Cmd<string>, n: nat)
    ensures Counted(Ampersands(n), 0) && WordsIn(InBackground(c, n)) == WordsIn(c)
    decreases n
  {
    hide Counted;
    if n == 0 {
      NothingCounted();
    } else {
      SymbolCounted('&');
      BacksCounted(Back(c), n - 1);
      CountedMore([Symbol('&')], 0, Ampersands(n - 1), 0);
    }
  }

  lemma {:induction false} LineCounted(l: Line)
    requires LineOk(l)
    ensures Counted(LineToks(l), WordsIn(LineTree(l)))
    decreases l
  {
    hide Counted, PipeToks, PipeTree, PipeOk, InBackground, Ampersands;
    var n := WordsIn(PipeTree(l.first));
    PipeCounted(l.first);
    BacksCounted(PipeTree(l.first), l.backs);
    CountedMore(PipeToks(l.first), n, Ampersands(l.backs), 0);
    if l.Then? {
      SymbolCounted(';');
      LineCounted(l.right);
      var x := PipeToks(l.first) + Ampersands(l.backs);
      CountedMore(x, n, [Symbol(';')], 0);
      CountedMore(x + [Symbol(';')], n, LineToks(l.right), WordsIn(LineTree(l.right)));
    }
  }

  /** An accepted line has the words of its tree, no more and no fewer, and a file behind every redirection. */
  lemma AcceptedCounted(s: string)
    requires ParseCmd(s).Ok?
    ensures Counted(Toks(s), WordsIn(ParseCmd(s).value))
  {
    hide Toks, LineOk, LineToks, LineTree, Counted, ParseCmd;
    DerivedAlone(s);
    assert Derives(s, ParseCmd(s).value);
    var l :| LineOk(l) && LineToks(l) == Toks(s) && LineTree(l) == ParseCmd(s).value;
    LineCounted(l);
  }

  lemma ArrowsCut(a: string, b: string)
    requires OddArrows(a) && b != "" && b[0] == '>'
    ensures !FilesFollow(Toks(a) + Toks(b))
  {
    hide Toks, OddArrows;
    LastArrow(a);
    FirstArrow(b);
    var k := |Toks(a)| - 1;
    assert (Toks(a) + Toks(b))[k].kind == '>' && (Toks(a) + Toks(b))[k + 1] == Toks(b)[0];
  }

  /** A line with blanks inside >> is rejected. */
  lemma ArrowsApart(a: string, w: string, b: string)
    requires AllBlank(w) && w != "" && OddArrows(a) && b != "" && b[0] == '>'
    ensures ParseCmd(a + w + b).Panic?
  {
    hide Toks, ParseCmd, AllBlank, OddArrows;
    Spaced(a, w, b);
    ArrowsCut(a, b);
    if ParseCmd(a + w + b).Ok? {
      AcceptedCounted(a + w + b);
    }
  }

  /** Blanks added to an accepted line leave its tree as it is exactly if they are not added inside a word or inside >>. */
  lemma BlanksInTreeIff(a: string, w: string, b: string)
    requires AllBlank(w) && w != "" && ParseCmd(a + b).Ok?
    ensures ParseCmd(a + w + b) == ParseCmd(a + b) <==> !Splits(a, b)
  {
    hide Toks, ParseCmd, AllBlank, OddArrows;
    Spaced(a, w, b);
    if !Splits(a, b) {
      BlanksAddedIff(a, w, b);
      SameTokens(a + w + b, a + b);
    } else if OddArrows(a) && b[0] == '>' {
      ArrowsApart(a, w, b);
    } else {
      CutWord(a, b);
      TokensInParts(Toks(a), Toks(b));
      AcceptedCounted(a + b);
      if ParseCmd(a + w + b).Ok? {
        AcceptedCounted(a + w + b);
      }
    }
  }

  /** `a >> b` is accepted, `a > > b` is not. */
  lemma AppendSplit()
    ensures ParseCmd("a >> b").Ok? && ParseCmd("a > > b").Panic?
  {
    hide ParseCmd, Toks;
    var l := Last(One(Simple([Word("a"), Redirect('+', "b")])), 0);
    var items := l.first.unit.items;
    assert items[1..] == [Redirect('+', "b")] && items[1..][1..] == [];
    assert Words(items) == ["a"];
    assert LineToks(l) == [Tok('a', "a"), Tok('+', ">>"), Tok('a', "b")];
    TokensOfAppend();
    GrammarIff("a >> b", LineTree(l));
    assert OddArrows("a >") by {
      assert "a >"[..2] == "a ";
    }
    ArrowsApart("a >", " ", "> b");
    assert "a >" + " " + "> b" == "a > > b";
  }

  lemma TokensOfAppend()
    ensures Toks("a >> b") == [Tok('a', "a"), Tok('+', ">>"), Tok('a', "b")]
  {
    hide Toks;
    TokFront("a");
    TokFront(">>");
    TokFront("b");
    Head("");
    Spaced("a", " ", ">>");
    Spaced("a >>", " ", "b");
    assert "a" + " " + ">>" == "a >>" && "a >>" + " " + "b" == "a >> b";
    assert "a"[1..] == "" && ">>"[2..] == "" && "b"[1..] == "";
    assert "a"[..1] == "a" && ">>"[..2] == ">>" && "b"[..1] == "b";
    assert WordLen("a") == 1 && WordLen("b") == 1;
  }
}
