/** Printing a command tree and parsing the text gives the tree back. */
module ShellRoundTrip {
  import opened Shell

  // ---------- blanks do not matter ----------

  lemma SkipTwice(s: string)
    ensures Skip(Skip(s)) == Skip(s)
  {
  }

  lemma SkipSpace(s: string)
    ensures Skip(" " + s) == Skip(s)
  {
    assert (" " + s)[1..] == s;
  }

  lemma TokenSkip(s: string)
    ensures GetToken(Skip(s)) == GetToken(s)
  {
    SkipTwice(s);
  }

  lemma RedirsSkip(s: string)
    ensures ParseRedirs(Skip(s)) == ParseRedirs(s)
  {
    SkipTwice(s);
  }

  lemma BacksSkip(cmd: Cmd<string>, s: string)
    ensures ParseBacks(cmd, Skip(s)) == ParseBacks(cmd, s)
  {
    SkipTwice(s);
  }

  lemma ExecSkip(s: string)
    ensures ParseExec(Skip(s)) == ParseExec(s)
  {
    SkipTwice(s);
    TokenSkip(s);
    RedirsSkip(s);
    hide Skip, GetToken, ParseLine, ParseRedirs, ParseArgs;
  }

  lemma PipeSkip(s: string)
    ensures ParsePipe(Skip(s)) == ParsePipe(s)
  {
    ExecSkip(s);
    hide ParseExec;
  }

  lemma LineSkip(s: string)
    ensures ParseLine(Skip(s)) == ParseLine(s)
  {
    PipeSkip(s);
    hide ParsePipe, ParseBacks;
  }

  // ---------- tokens read back ----------

  lemma {:induction false} WordEnds(w: string, u: string)
    requires forall i :: 0 <= i < |w| ==> IsWordChar(w[i])
    ensures WordLen(w + " " + u) == |w|
  {
    if w != "" {
      assert (w + " " + u)[1..] == w[1..] + " " + u;
      WordEnds(w[1..], u);
    }
  }

  lemma WordToken(w: string, u: string)
    requires IsWord(w)
    ensures GetToken(w + " " + u) == Token('a', w, Skip(u))
    ensures Skip(w + " " + u) == w + " " + u && IsWordChar((w + " " + u)[0])
  {
    var s := w + " " + u;
    assert s[0] == w[0];
    WordEnds(w, u);
    assert s[..|w|] == w && s[|w|..] == " " + u;
    SkipSpace(u);
  }

  lemma SymbolToken(c: char, u: string)
    requires IsSymbol(c)
    ensures GetToken([c] + " " + u) == Token(c, [c], Skip(u))
    ensures Skip([c] + " " + u) == [c] + " " + u
  {
    var s := [c] + " " + u;
    assert s[0] == c && s[1] == ' ' && s[1..] == " " + u && s[..1] == [c];
    SkipSpace(u);
  }

  // ---------- redirections ----------

  function PrintRedirs(rs: seq<(string, Mode)>): string {
    if rs == [] then "" else PrintRedir(rs[0].0, rs[0].1) + PrintRedirs(rs[1..])
  }

  predicate Redirs(rs: seq<(string, Mode)>) {
    forall i :: 0 <= i < |rs| ==> IsWord(rs[i].0)
  }

  lemma {:induction false} RedirsMore(rs: seq<(string, Mode)>, r: (string, Mode))
    ensures PrintRedirs(rs + [r]) == PrintRedirs(rs) + PrintRedir(r.0, r.1)
  {
    if rs == [] {
      assert rs + [r] == [r] && PrintRedirs([r]) == PrintRedir(r.0, r.1) + PrintRedirs([]);
    } else {
      assert (rs + [r])[1..] == rs[1..] + [r];
      RedirsMore(rs[1..], r);
    }
  }

  lemma RedirRead(file: string, mode: Mode, u: string)
    requires IsWord(file)
    ensures var s := PrintRedir(file, mode) + u;
            var op := GetToken(s);
            && Peek(s, "<>") && op.kind == (if mode == Input then '<' else '>')
            && GetToken(op.rest) == Token('a', file, Skip(u))
  {
    var c := if mode == Input then '<' else '>';
    var s := PrintRedir(file, mode) + u;
    assert s == [c] + " " + (file + " " + u);
    SymbolToken(c, file + " " + u);
    WordToken(file, u);
  }

  lemma {:induction false} RedirsReadBack(rs: seq<(string, Mode)>, u: string)
    requires Redirs(rs) && !Peek(u, "<>")
    ensures ParseRedirs(PrintRedirs(rs) + u) == Ok(rs, Skip(u))
  {
    if rs == [] {
      assert PrintRedirs(rs) + u == u;
    } else {
      var rest := PrintRedirs(rs[1..]) + u;
      assert PrintRedirs(rs) + u == PrintRedir(rs[0].0, rs[0].1) + rest;
      RedirRead(rs[0].0, rs[0].1, rest);
      RedirsSkip(rest);
      RedirsReadBack(rs[1..], u);
      assert rs == [(rs[0].0, rs[0].1)] + rs[1..];
    }
  }

  // ---------- exec commands ----------

  /** The text begins, after blanks, with one of `toks`, or there is nothing left. */
  predicate Ends(u: string, toks: string) {
    Skip(u) == "" || Peek(u, toks)
  }

  predicate Words(ws: seq<string>) {
    forall i :: 0 <= i < |ws| ==> IsWord(ws[i])
  }

  lemma ArgsDone(u: string, args: seq<string>, redirs: seq<(string, Mode)>)
    requires Ends(u, "|)&;")
    ensures ParseArgs(u, args, redirs) == Ok(Wrap(Exec(args), redirs), Skip(u))
  {
  }

  /** One word: the redirections behind it are read before the next. */
  lemma ArgsStep(w: string, v: string, args: seq<string>, redirs: seq<(string, Mode)>)
    requires IsWord(w) && |args| + 1 < MAXARGS && ParseRedirs(v).Ok?
    ensures ParseArgs(w + " " + v, args, redirs) == ParseArgs(ParseRedirs(v).rest, args + [w], redirs + ParseRedirs(v).value)
  {
    WordToken(w, v);
    RedirsSkip(v);
  }

  lemma NoRedirsBefore(w: string, v: string)
    requires IsWord(w)
    ensures ParseRedirs(w + " " + v) == Ok([], w + " " + v)
  {
    WordToken(w, v);
  }

  lemma {:induction false} ArgsReadBack(ws: seq<string>, rs: seq<(string, Mode)>, u: string, args: seq<string>)
    requires ws != [] && Words(ws) && Redirs(rs) && |args| + |ws| < MAXARGS && Ends(u, "|)&;")
    ensures ParseArgs(PrintWords(ws) + (PrintRedirs(rs) + u), args, []) == Ok(Wrap(Exec(args + ws), rs), Skip(u))
  {
    hide PrintWords, ParseRedirs, ParseArgs, Wrap, PrintRedirs, Skip, Ends;
    var tail := PrintRedirs(rs) + u;
    WordsFront(ws, tail);
    if |ws| == 1 {
      assert args + ws == args + [ws[0]];
      LastArg(ws[0], rs, u, args);
    } else {
      WordsFront(ws[1..], tail);
      NoRedirsBefore(ws[1], PrintWords(ws[1..][1..]) + tail);
      var none: seq<(string, Mode)> := [];
      assert none + none == none;
      ArgsStep(ws[0], PrintWords(ws[1..]) + tail, args, none);
      ArgsReadBack(ws[1..], rs, u, args + [ws[0]]);
      assert args + [ws[0]] + ws[1..] == args + ws;
    }
  }

  lemma {:induction false} WordsFront(ws: seq<string>, tail: string)
    requires ws != []
    ensures PrintWords(ws) + tail == ws[0] + " " + (PrintWords(ws[1..]) + tail)
    ensures |ws| == 1 ==> PrintWords(ws[1..]) + tail == tail
  {
    var more := PrintWords(ws[1..]);
    assert PrintWords(ws) == ws[0] + " " + more;
    assert |ws| == 1 ==> more == "";
  }

  lemma LastArg(w: string, rs: seq<(string, Mode)>, u: string, args: seq<string>)
    requires IsWord(w) && Redirs(rs) && |args| + 1 < MAXARGS && Ends(u, "|)&;")
    ensures ParseArgs(w + " " + (PrintRedirs(rs) + u), args, []) == Ok(Wrap(Exec(args + [w]), rs), Skip(u))
  {
    RedirsReadBack(rs, u);
    SkipTwice(u);
    hide PrintRedirs, ParseRedirs, ParseArgs, Wrap;
    ArgsStep(w, PrintRedirs(rs) + u, args, []);
    ArgsDone(Skip(u), args + [w], rs);
    assert [] + rs == rs;
  }

  lemma ExecReadBack(ws: seq<string>, rs: seq<(string, Mode)>, u: string)
    requires Words(ws) && |ws| < MAXARGS && Redirs(rs) && Ends(u, "|)&;")
    ensures ParseExec(PrintWords(ws) + (PrintRedirs(rs) + u)) == Ok(Wrap(Exec(ws), rs), Skip(u))
  {
    var s := PrintWords(ws) + (PrintRedirs(rs) + u);
    if ws == [] {
      assert s == PrintRedirs(rs) + u;
      NoBlockAhead(rs, u);
      RedirsReadBack(rs, u);
      SkipTwice(u);
      ArgsDone(Skip(u), [], rs);
    } else {
      var v := PrintWords(ws[1..]) + (PrintRedirs(rs) + u);
      assert s == ws[0] + " " + v;
      WordToken(ws[0], v);
      NoRedirsBefore(ws[0], v);
      ArgsReadBack(ws, rs, u, []);
      assert [] + ws == ws;
    }
  }

  lemma NoBlockAhead(rs: seq<(string, Mode)>, u: string)
    requires Redirs(rs) && Ends(u, "|)&;")
    ensures !Peek(PrintRedirs(rs) + u, "(")
  {
    if rs == [] {
      assert PrintRedirs(rs) + u == u;
    } else {
      var rest := PrintRedirs(rs[1..]) + u;
      assert PrintRedirs(rs) + u == PrintRedir(rs[0].0, rs[0].1) + rest;
      hide Skip, PrintRedir, PrintRedirs;
      RedirRead(rs[0].0, rs[0].1, rest);
    }
  }

  // ---------- a command under its redirections ----------

  function Base(c: Cmd<string>): (b: Cmd<string>)
    ensures !b.Redir?
  {
    if c.Redir? then Base(c.cmd) else c
  }

  function RedirsOf(c: Cmd<string>): seq<(string, Mode)> {
    if c.Redir? then RedirsOf(c.cmd) + [(c.file, c.mode)] else []
  }

  lemma {:induction false} Unwrapped(c: Cmd<string>)
    requires WellFormed(c)
    ensures Wrap(Base(c), RedirsOf(c)) == c && Redirs(RedirsOf(c)) && WellFormed(Base(c))
    ensures PrintExec(c) == PrintExec(Base(c)) + PrintRedirs(RedirsOf(c))
    ensures Base(c) == c || Base(c) < c
  {
    if c.Redir? {
      Unwrapped(c.cmd);
      RedirsMore(RedirsOf(c.cmd), (c.file, c.mode));
      assert RedirsOf(c)[..|RedirsOf(c)| - 1] == RedirsOf(c.cmd);
    } else {
      assert PrintExec(c) + "" == PrintExec(c);
    }
  }

  // ---------- the grammar, level by level ----------

  predicate IsPipeline(c: Cmd<string>) {
    c.Exec? || c.Redir? || c.Pipe?
  }

  lemma {:induction false} ExecRoundTrip(c: Cmd<string>, u: string)
    requires WellFormed(c) && Ends(u, "|)&;")
    ensures ParseExec(PrintExec(c) + u) == Ok(c, Skip(u))
    decreases c, if c.Exec? || c.Redir? then 0 else 4
  {
    hide Skip, Ends, ParseExec, ParseLine, PrintLine, PrintWords, PrintRedirs, Wrap, RedirsOf, Base;
    var b, rs := Base(c), RedirsOf(c);
    Unwrapped(c);
    PrintExecParts(c, u);
    if b.Exec? {
      ExecReadBack(b.argv, rs, u);
    } else {
      ParenAhead(PrintRedirs(rs) + u);
      LineRoundTrip(b, ") " + (PrintRedirs(rs) + u));
      BlockReadBack(b, rs, u);
    }
  }

  lemma ParenAhead(u: string)
    ensures Ends(") " + u, ")")
  {
    assert ") " + u == [')'] + " " + u;
    SymbolToken(')', u);
  }

  lemma PrintExecParts(c: Cmd<string>, u: string)
    requires WellFormed(c)
    ensures Base(c).Exec? ==> PrintExec(c) + u == PrintWords(Base(c).argv) + (PrintRedirs(RedirsOf(c)) + u)
    ensures !Base(c).Exec? ==> PrintExec(c) + u == "( " + (PrintLine(Base(c)) + (") " + (PrintRedirs(RedirsOf(c)) + u)))
  {
    hide Base, RedirsOf, PrintRedirs, PrintWords, PrintLine;
    Unwrapped(c);
    Regroup("( ", PrintLine(Base(c)), ") ", PrintRedirs(RedirsOf(c)), u);
  }

  lemma Regroup(a: string, b: string, c: string, d: string, e: string)
    ensures a + b + c + d + e == a + (b + (c + (d + e))) && b + d + e == b + (d + e)
  {
  }

  /** A symbol and a blank: what peek and gettoken make of them, before and after blanks are skipped. */
  lemma SymbolAhead(c: char, u: string)
    requires IsSymbol(c)
    ensures var s := [c] + " " + u;
            GetToken(s).rest == GetToken(Skip(s)).rest == Skip(u) && Peek(s, [c]) && Peek(Skip(s), [c])
  {
    SymbolToken(c, u);
  }

  lemma OpenAhead(u: string)
    ensures GetToken("( " + u).rest == Skip(u) && Peek("( " + u, "(")
  {
    assert "( " + u == ['('] + " " + u;
    SymbolAhead('(', u);
  }

  lemma CloseAhead(u: string)
    ensures GetToken(Skip(") " + u)).rest == Skip(u) && Peek(Skip(") " + u), ")")
  {
    assert ") " + u == [')'] + " " + u;
    SymbolAhead(')', u);
  }

  /** A block whose line and closing parenthesis are read. */
  lemma BlockParses(s: string, b: Cmd<string>, close: string)
    requires Peek(s, "(") && ParseLine(GetToken(s).rest) == Ok(b, Skip(close)) && Peek(Skip(close), ")")
    ensures ParseExec(s) == var redirs := ParseRedirs(GetToken(Skip(close)).rest);
                            if redirs.Panic? then Panic(redirs.error) else Ok(Wrap(b, redirs.value), redirs.rest)
  {
    hide Skip, ParseLine, ParseRedirs, Wrap, GetToken, Peek;
  }

  lemma BlockReadBack(b: Cmd<string>, rs: seq<(string, Mode)>, u: string)
    requires Redirs(rs) && Ends(u, "|)&;")
    requires ParseLine(PrintLine(b) + (") " + (PrintRedirs(rs) + u))) == Ok(b, Skip(") " + (PrintRedirs(rs) + u)))
    ensures ParseExec("( " + (PrintLine(b) + (") " + (PrintRedirs(rs) + u)))) == Ok(Wrap(b, rs), Skip(u))
  {
    RedirsReadBack(rs, u) by {
      assert !Peek(u, "<>");
    }
    hide Skip, Ends, ParseLine, ParseRedirs, PrintLine, PrintRedirs, Wrap, GetToken, Redirs, Peek, ParseExec;
    var tail := PrintRedirs(rs) + u;
    var inner := PrintLine(b) + (") " + tail);
    OpenAhead(inner);
    LineSkip(inner);
    CloseAhead(tail);
    RedirsSkip(tail);
    BlockParses("( " + inner, b, ") " + tail);
  }

  function PrintRight(c: Cmd<string>): string {
    if IsPipeline(c) then PrintPipe(c) else PrintExec(c)
  }

  lemma PipeParts(c: Cmd<string>, u: string)
    requires c.Pipe?
    ensures PrintPipe(c) + u == PrintExec(c.left) + ("| " + (PrintRight(c.right) + u))
  {
    hide PrintExec;
  }

  lemma BarAhead(v: string)
    ensures GetToken(Skip("| " + v)).rest == Skip(v) && Peek(Skip("| " + v), "|") && Ends("| " + v, "|)&;")
  {
    assert "| " + v == ['|'] + " " + v;
    SymbolAhead('|', v);
  }

  /** A pipeline whose first command and bar are read. */
  lemma PipeParses(s: string, left: Cmd<string>, bar: string, right: Cmd<string>, rest: string)
    requires ParseExec(s) == Ok(left, Skip(bar)) && Peek(Skip(bar), "|") && ParsePipe(GetToken(Skip(bar)).rest) == Ok(right, rest)
    ensures ParsePipe(s) == Ok(Pipe(left, right), rest)
  {
    hide Skip, Peek, GetToken, ParseExec;
  }

  /** What parsepipe returns for the core of a line: a pipeline, or anything else in parentheses. */
  lemma {:induction false} PipeRoundTrip(c: Cmd<string>, u: string)
    requires WellFormed(c) && Ends(u, ")&;")
    ensures IsPipeline(c) ==> ParsePipe(PrintPipe(c) + u) == Ok(c, Skip(u))
    ensures !IsPipeline(c) ==> ParsePipe(PrintExec(c) + u) == Ok(c, Skip(u))
    decreases c, if IsPipeline(c) then 1 else 5
  {
    SkipTwice(u);
    if !c.Pipe? {
      ExecRoundTrip(c, u);
    } else {
      hide Skip, Ends, ParsePipe, PrintPipe, PrintExec, Peek, GetToken;
      var v := PrintRight(c.right) + u;
      PipeParts(c, u);
      BarAhead(v);
      ExecRoundTrip(c.left, "| " + v);
      PipeSkip(v);
      PipeRoundTrip(c.right, u);
      PipeParses(PrintPipe(c) + u, c.left, "| " + v, c.right, Skip(u));
    }
  }

  /** Whatever follows a printed command, parsepipe and the `&` loop arrive at the command first. */
  lemma {:induction false} BackRoundTrip(c: Cmd<string>, u: string)
    requires WellFormed(c) && Ends(u, ")&;")
    ensures var first := ParsePipe(PrintBack(c) + u);
            first.Ok? && ParseBacks(first.value, first.rest) == ParseBacks(c, u)
    decreases c, if c.List? then 6 else 2
  {
    if c.Back? {
      assert PrintBack(c) + u == PrintBack(c.cmd) + ("& " + u);
      assert "& " + u == ['&'] + " " + u;
      SymbolToken('&', u);
      BackRoundTrip(c.cmd, "& " + u);
      BacksSkip(Back(c.cmd), u);
    } else {
      PipeRoundTrip(c, u);
      BacksSkip(c, u);
    }
  }

  lemma {:induction false} LineRoundTrip(c: Cmd<string>, u: string)
    requires WellFormed(c) && Ends(u, ")")
    ensures ParseLine(PrintLine(c) + u) == Ok(c, Skip(u))
    decreases c, 3
  {
    SkipTwice(u);
    if !c.List? {
      BackRoundTrip(c, u);
    } else {
      var v := PrintLine(c.right) + u;
      assert PrintLine(c) + u == PrintBack(c.left) + ("; " + v);
      assert "; " + v == [';'] + " " + v;
      SymbolToken(';', v);
      BackRoundTrip(c.left, "; " + v);
      LineSkip(v);
      LineRoundTrip(c.right, u);
    }
  }

  /** Parsing what was printed gives back the tree, for every tree the parser can produce. */
  lemma RoundTrip(c: Cmd<string>)
    requires WellFormed(c)
    ensures ParseCmd(PrintLine(c)) == Ok(c, "")
  {
    LineRoundTrip(c, "");
    assert PrintLine(c) + "" == PrintLine(c);
  }

  // ---------- what the parser accepts is printable ----------

  lemma {:induction false} WordLenIsWord(s: string)
    requires '\0' !in s
    ensures forall i :: 0 <= i < WordLen(s) ==> IsWordChar(s[i])
  {
    if WordLen(s) > 0 {
      WordLenIsWord(s[1..]);
    }
  }

  lemma {:induction false} SkipIsSuffix(s: string)
    ensures Skip(s) == s[|s| - |Skip(s)|..]
  {
    if s != "" && IsBlank(s[0]) {
      SkipIsSuffix(s[1..]);
      assert s[1..][|s| - 1 - |Skip(s)|..] == s[|s| - |Skip(s)|..];
    }
  }

  lemma SuffixClean(s: string, k: nat)
    requires '\0' !in s && k <= |s|
    ensures '\0' !in Skip(s[k..])
  {
    SkipIsSuffix(s[k..]);
  }

  lemma TokenIsWord(s: string)
    requires '\0' !in s
    ensures '\0' !in GetToken(s).rest && '\0' !in Skip(s)
    ensures GetToken(s).kind == 'a' ==> IsWord(GetToken(s).text)
  {
    hide Skip, WordLen, IsWord;
    assert s[0..] == s;
    SuffixClean(s, 0);
    var t := Skip(s);
    if t != "" {
      SuffixClean(t, 1);
      WordIsWord(t);
      SuffixClean(t, WordLen(t));
      if |t| > 1 {
        SuffixClean(t, 2);
      }
    }
  }

  lemma WordIsWord(t: string)
    requires '\0' !in t && t != ""
    ensures !IsSymbol(t[0]) && !IsBlank(t[0]) ==> IsWord(t[..WordLen(t)])
  {
    WordLenIsWord(t);
    assert t[0] in t;
  }

  lemma {:induction false} RedirsWellFormed(s: string)
    requires '\0' !in s && ParseRedirs(s).Ok?
    ensures Redirs(ParseRedirs(s).value) && '\0' !in ParseRedirs(s).rest
    decreases |s|
  {
    TokenIsWord(s);
    if Peek(s, "<>") {
      TokenIsWord(GetToken(s).rest);
      RedirsWellFormed(GetToken(GetToken(s).rest).rest);
    }
  }

  lemma {:induction false} WrapWellFormed(c: Cmd<string>, rs: seq<(string, Mode)>)
    requires WellFormed(c) && Redirs(rs)
    ensures WellFormed(Wrap(c, rs))
    decreases |rs|
  {
    if rs != [] {
      WrapWellFormed(c, rs[..|rs| - 1]);
    }
  }

  lemma {:induction false} ArgsWellFormed(s: string, args: seq<string>, rs: seq<(string, Mode)>)
    requires '\0' !in s && Words(args) && |args| < MAXARGS && Redirs(rs) && ParseArgs(s, args, rs).Ok?
    ensures WellFormed(ParseArgs(s, args, rs).value) && '\0' !in ParseArgs(s, args, rs).rest
    decreases |s|
  {
    TokenIsWord(s);
    var t := GetToken(s);
    if Peek(s, "|)&;") || t.kind == '\0' {
      WrapWellFormed(Exec(args), rs);
    } else {
      RedirsWellFormed(t.rest);
      ArgsWellFormed(ParseRedirs(t.rest).rest, args + [t.text], rs + ParseRedirs(t.rest).value);
    }
  }

  lemma {:induction false} ExecWellFormed(s: string)
    requires '\0' !in s && ParseExec(s).Ok?
    ensures WellFormed(ParseExec(s).value) && '\0' !in ParseExec(s).rest
    decreases |s|, 1
  {
    if Peek(s, "(") {
      TokenIsWord(s);
      LineWellFormed(GetToken(s).rest);
      var line := ParseLine(GetToken(s).rest);
      TokenIsWord(line.rest);
      RedirsWellFormed(GetToken(line.rest).rest);
      WrapWellFormed(line.value, ParseRedirs(GetToken(line.rest).rest).value);
    } else {
      RedirsWellFormed(s);
      ArgsWellFormed(ParseRedirs(s).rest, [], ParseRedirs(s).value);
    }
  }

  lemma {:induction false} PipeWellFormed(s: string)
    requires '\0' !in s && ParsePipe(s).Ok?
    ensures WellFormed(ParsePipe(s).value) && '\0' !in ParsePipe(s).rest
    decreases |s|, 2
  {
    ExecWellFormed(s);
    var left := ParseExec(s);
    TokenIsWord(left.rest);
    if Peek(left.rest, "|") {
      PipeWellFormed(GetToken(left.rest).rest);
    }
  }

  lemma {:induction false} BacksWellFormed(c: Cmd<string>, s: string)
    requires '\0' !in s && WellFormed(c)
    ensures WellFormed(ParseBacks(c, s).0) && '\0' !in ParseBacks(c, s).1
    decreases |s|
  {
    TokenIsWord(s);
    if Peek(s, "&") {
      BacksWellFormed(Back(c), GetToken(s).rest);
    }
  }

  lemma {:induction false} LineWellFormed(s: string)
    requires '\0' !in s && ParseLine(s).Ok?
    ensures WellFormed(ParseLine(s).value) && '\0' !in ParseLine(s).rest
    decreases |s|, 3
  {
    PipeWellFormed(s);
    var first := ParsePipe(s);
    BacksWellFormed(first.value, first.rest);
    var (cmd, rest) := ParseBacks(first.value, first.rest);
    TokenIsWord(rest);
    if Peek(rest, ";") {
      LineWellFormed(GetToken(rest).rest);
    }
  }

  /** Every accepted line has a printed form that parses to the same tree: printing is a normal form. */
  lemma AcceptedIsPrintable(s: string)
    requires '\0' !in s && ParseCmd(s).Ok?
    ensures WellFormed(ParseCmd(s).value)
    ensures ParseCmd(PrintLine(ParseCmd(s).value)) == ParseCmd(s)
  {
    LineWellFormed(s);
    RoundTrip(ParseCmd(s).value);
  }
}
