/** sh.c's parser as it runs: a cursor over a NUL-terminated buffer, trees of pointers into it, and
    the pass that terminates every string in place. */
module ShellParser {
  import opened Shell
  import opened ShellTokens
  import opened ShellGrammar

  /** A string in the buffer, as the parser keeps it: its first character and the one after its last. */
  datatype Span = Span(q: nat, eq: nat)

  datatype Outcome<T> = Good(value: T) | Bad(error: Error)

  // ---------- what spans mean ----------

  ghost predicate SpanOk(text: string, w: Span) {
    && w.q < w.eq <= |text|
    && (forall i :: w.q <= i < w.eq ==> IsWordChar(text[i]))
    && (w.eq < |text| ==> !IsWordChar(text[w.eq]))
  }

  ghost predicate SpansOk(text: string, c: Cmd<Span>) {
    match c
    case Exec(argv) => forall i :: 0 <= i < |argv| ==> SpanOk(text, argv[i])
    case Redir(cmd, file, _) => SpansOk(text, cmd) && SpanOk(text, file)
    case Pipe(left, right) => SpansOk(text, left) && SpansOk(text, right)
    case List(left, right) => SpansOk(text, left) && SpansOk(text, right)
    case Back(cmd) => SpansOk(text, cmd)
  }

  ghost function Read(text: string, w: Span): string {
    if w.q <= w.eq <= |text| then text[w.q..w.eq] else ""
  }

  ghost function ReadAll(text: string, ws: seq<Span>): (r: seq<string>)
    ensures |r| == |ws|
  {
    seq(|ws|, i requires 0 <= i < |ws| => Read(text, ws[i]))
  }

  /** The tree with the strings its spans denote. */
  ghost function Meaning(text: string, c: Cmd<Span>): Cmd<string> {
    match c
    case Exec(argv) => Exec(ReadAll(text, argv))
    case Redir(cmd, file, mode) => Redir(Meaning(text, cmd), Read(text, file), mode)
    case Pipe(left, right) => Pipe(Meaning(text, left), Meaning(text, right))
    case List(left, right) => List(Meaning(text, left), Meaning(text, right))
    case Back(cmd) => Back(Meaning(text, cmd))
  }

  ghost function ReadRedirs(text: string, rs: seq<(Span, Mode)>): (r: seq<(string, Mode)>)
    ensures |r| == |rs|
  {
    seq(|rs|, i requires 0 <= i < |rs| => (Read(text, rs[i].0), rs[i].1))
  }

  ghost predicate RedirsOk(text: string, rs: seq<(Span, Mode)>) {
    forall i :: 0 <= i < |rs| ==> SpanOk(text, rs[i].0)
  }

  lemma {:induction false} WrapMeaning(text: string, c: Cmd<Span>, rs: seq<(Span, Mode)>)
    requires SpansOk(text, c) && RedirsOk(text, rs)
    ensures Meaning(text, Wrap(c, rs)) == Wrap(Meaning(text, c), ReadRedirs(text, rs)) && SpansOk(text, Wrap(c, rs))
    decreases |rs|
  {
    if rs == [] {
      assert ReadRedirs(text, rs) == [];
    } else {
      var n := |rs| - 1;
      WrapMeaning(text, c, rs[..n]);
      assert ReadRedirs(text, rs)[..n] == ReadRedirs(text, rs[..n]);
    }
  }

  function Prepend(rs: seq<(string, Mode)>, p: Parsed<seq<(string, Mode)>>): Parsed<seq<(string, Mode)>> {
    if p.Panic? then p else Ok(rs + p.value, p.rest)
  }

  /** The method's outcome is the grammar's: the same error, or the same tree with the same text left. */
  ghost predicate Agrees(text: string, rest: string, r: Outcome<Cmd<Span>>, p: Parsed<Cmd<string>>) {
    match p
    case Panic(e) => r == Bad(e)
    case Ok(v, left) => r.Good? && Meaning(text, r.value) == v && SpansOk(text, r.value) && rest == left
  }

  /** The kind and length of the token at the front of a text without leading blanks. */
  function Front(here: string): (char, nat) {
    if here == "" then ('\0', 0)
    else if here[0] == '>' then if |here| > 1 && here[1] == '>' then ('+', 2) else ('>', 1)
    else if IsSymbol(here[0]) then (here[0], 1)
    else ('a', WordLen(here))
  }

  lemma TokenFront(s: string)
    ensures var here := Skip(s);
            var (kind, n) := Front(here);
            n <= |here| && Shell.GetToken(s) == Token(kind, here[..n], Skip(here[n..]))
  {
  }

  // ---------- the parser ----------

  class Parser {
    const buf: array<char>
    ghost const text: string
    var ps: nat

    ghost predicate Valid()
      reads this, buf
    {
      && ps <= |text| && buf.Length == |text| + 1 && '\0' !in text
      && buf[..|text|] == text && buf[|text|] == '\0'
    }

    ghost function Rest(): string
      requires ps <= |text|
      reads this
    {
      text[ps..]
    }

    constructor (buf: array<char>, ghost text: string)
      requires buf.Length == |text| + 1 && '\0' !in text && buf[..|text|] == text && buf[|text|] == '\0'
      ensures Valid() && this.buf == buf && this.text == text && ps == 0
    {
      this.buf, this.text, this.ps := buf, text, 0;
    }

    /** The loop over blanks that opens peek and gettoken and closes gettoken. */
    method SkipFrom(s: nat) returns (r: nat)
      requires Valid() && s <= |text|
      ensures s <= r <= |text| && text[r..] == Skip(text[s..])
      ensures AllBlank(text[s..r]) && (r < |text| ==> text[r] !in " \t\r\n\U{0b}")
    {
      r := s;
      while r < buf.Length - 1 && IsBlank(buf[r])
        invariant s <= r <= |text| && Skip(text[r..]) == Skip(text[s..]) && AllBlank(text[s..r])
      {
        assert buf[r] == text[r] == text[r..][0] && text[r..][1..] == text[r + 1..];
        assert text[s..r + 1] == text[s..r] + [text[r]];
        r := r + 1;
      }
      assert r < |text| ==> buf[r] == text[r..][0];
    }

    method WordEnd(s: nat) returns (r: nat)
      requires Valid() && s <= |text|
      ensures r == s + WordLen(text[s..]) <= |text|
      ensures forall i :: s <= i < r ==> IsWordChar(text[i])
      ensures r < |text| ==> !IsWordChar(text[r])
    {
      r := s;
      while r < buf.Length - 1 && !IsBlank(buf[r]) && !IsSymbol(buf[r])
        invariant s <= r <= |text| && r + WordLen(text[r..]) == s + WordLen(text[s..])
        invariant forall i :: s <= i < r ==> IsWordChar(text[i])
      {
        assert buf[r] == text[r] == text[r..][0] && text[r..][1..] == text[r + 1..];
        r := r + 1;
      }
      assert r < |text| ==> buf[r] == text[r] == text[r..][0];
    }

    /** gettoken: its kind and span, the cursor moved past it and the blanks behind it. */
    method GetToken() returns (kind: char, w: Span)
      requires Valid()
      modifies this`ps
      ensures Valid()
      ensures var t := Shell.GetToken(old(Rest()));
              kind == t.kind && Read(text, w) == t.text && Rest() == t.rest
      ensures kind == 'a' ==> SpanOk(text, w)
      ensures old(ps) <= w.q <= w.eq <= ps <= |text| && AllBlank(text[old(ps)..w.q]) && AllBlank(text[w.eq..ps])
      ensures ps < |text| ==> text[ps] !in " \t\r\n\U{0b}"
      ensures if kind == '\0' then w.q == |text| else IsTok(Tok(kind, text[w.q..w.eq]))
      ensures w.eq < |text| ==> (kind == 'a' ==> !Plain(text[w.eq])) && (kind == '>' ==> text[w.eq] != '>')
    {
      TokenFront(Rest());
      GotTok(Rest());
      hide Shell.GetToken, Skip;
      var q := SkipFrom(ps);
      ghost var here := text[q..];
      var s;
      kind, s := Scan(q);
      w := Span(q, s);
      assert here[..s - q] == text[q..s] && here[s - q..] == text[s..];
      ps := SkipFrom(s);
    }

    /** gettoken's switch on the first character. */
    method Scan(q: nat) returns (kind: char, s: nat)
      requires Valid() && q <= |text| && (q < |text| ==> !IsBlank(text[q]))
      ensures (kind, s - q) == Front(text[q..]) && q <= s <= |text|
      ensures kind == 'a' ==> SpanOk(text, Span(q, s))
      ensures kind == '>' && s < |text| ==> text[s] != '>'
    {
      assert q < |text| ==> buf[q] == text[q] == text[q..][0];
      assert q + 1 < |text| ==> buf[q + 1] == text[q + 1] == text[q..][1];
      kind, s := buf[q], q;
      if buf[s] == '\0' {
      } else if buf[s] in "|();&<" {
        s := s + 1;
      } else if buf[s] == '>' {
        s := s + 1;
        if buf[s] == '>' {
          kind := '+';
          s := s + 1;
        }
      } else {
        kind := 'a';
        s := WordEnd(s);
      }
    }

    /** peek: is the next character after blanks one of `toks`? The cursor moves past the blanks. */
    method Peek(toks: string) returns (r: bool)
      requires Valid() && '\0' !in toks
      modifies this`ps
      ensures Valid() && Rest() == Skip(old(Rest())) && r == Shell.Peek(old(Rest()), toks)
    {
      ps := SkipFrom(ps);
      assert ps < |text| ==> buf[ps] == text[ps] == Rest()[0];
      r := buf[ps] != '\0' && buf[ps] in toks;
    }
  
    /** parseredirs; the redirections are collected here and put around the command by the callers. */
    method ParseRedirs() returns (r: Outcome<seq<(Span, Mode)>>)
      requires Valid()
      modifies this`ps
      ensures Valid() && old(ps) <= ps
      ensures match Shell.ParseRedirs(old(Rest()))
              case Panic(e) => r == Bad(e)
              case Ok(v, left) =>
                r.Good? && ReadRedirs(text, r.value) == v && RedirsOk(text, r.value) && Rest() == left
    {
      hide Shell.GetToken, Skip, AllBlank, IsTok, Plain, SpanOk;
      ghost var start := Rest();
      var redirs: seq<(Span, Mode)> := [];
      var more := Peek("<>");
      PrependNone(Shell.ParseRedirs(start));
      ghost var at := start;
      while more
        invariant Valid() && old(ps) <= ps && RedirsOk(text, redirs)
        invariant more == Shell.Peek(at, "<>") && Rest() == Skip(at)
        invariant Shell.ParseRedirs(start) == Prepend(ReadRedirs(text, redirs), Shell.ParseRedirs(at))
        decreases |text| - ps
      {
        SkipTokens(at);
        var tok, _ := GetToken();
        ghost var op := Shell.GetToken(at);
        var kind, w := GetToken();
        ghost var file := Shell.GetToken(op.rest);
        if kind != 'a' {
          return Bad(MissingFile);
        }
        RedirStep(ReadRedirs(text, redirs), at);
        ReadMore(text, redirs, w, if tok == '<' then Input else Output);
        redirs := redirs + [(w, if tok == '<' then Input else Output)];
        at := Rest();
        more := Peek("<>");
      }
      r := Good(redirs);
    }

    /** The loop of parseexec: words into argv, redirections behind each. */
    method ParseArgs(first: seq<(Span, Mode)>) returns (r: Outcome<Cmd<Span>>)
      requires Valid() && RedirsOk(text, first)
      modifies this`ps
      ensures Valid() && old(ps) <= ps
      ensures Agrees(text, Rest(), r, Shell.ParseArgs(old(Rest()), [], ReadRedirs(text, first)))
    {
      hide Shell.ParseRedirs, Shell.GetToken, Skip, Wrap;
      ghost var start, at := Rest(), Rest();
      var argv: seq<Span>, redirs := [], first;
      assert ReadAll(text, argv) == [];
      var stop := Peek("|)&;");
      while !stop
        invariant Valid() && old(ps) <= ps && ArgsOk(text, argv) && |argv| < MAXARGS && RedirsOk(text, redirs)
        invariant stop == Shell.Peek(at, "|)&;") && Rest() == Skip(at)
        invariant Shell.ParseArgs(start, [], ReadRedirs(text, first)) ==
                  Shell.ParseArgs(at, ReadAll(text, argv), ReadRedirs(text, redirs))
        decreases |text| - ps
      {
        SkipTokens(at);
        ghost var before := ps;
        var tok, w := GetToken();
        if tok == '\0' {
          break;
        }
        if tok != 'a' {
          return Bad(Syntax);
        }
        ArgsMore(text, argv, w);
        argv := argv + [w];
        if |argv| >= MAXARGS {
          return Bad(TooManyArgs);
        }
        assert before < ps;
        var more := ParseRedirs();
        if more.Bad? {
          return Bad(more.error);
        }
        RedirsConcat(text, redirs, more.value);
        redirs := redirs + more.value;
        at := Rest();
        stop := Peek("|)&;");
      }
      WrapMeaning(text, Exec(argv), redirs);
      r := Good(Wrap(Exec(argv), redirs));
    }

    method ParseExec() returns (r: Outcome<Cmd<Span>>)
      requires Valid()
      modifies this`ps
      ensures Valid() && old(ps) <= ps && Agrees(text, Rest(), r, Shell.ParseExec(old(Rest())))
      decreases |text| - ps, 1
    {
      ghost var start := Rest();
      var block := Peek("(");
      if block {
        SkipTokens(start);
        r := ParseBlock(start);
        return;
      }
      RedirsFromSkip(start);
      var first := ParseRedirs();
      if first.Bad? {
        return Bad(first.error);
      }
      r := ParseArgs(first.value);
    }

    method ParseBlock(ghost start: string) returns (r: Outcome<Cmd<Span>>)
      requires Valid() && Shell.Peek(start, "(") && Rest() == Skip(start)
      modifies this`ps
      ensures Valid() && old(ps) <= ps && Agrees(text, Rest(), r, Shell.ParseBlock(start))
      decreases |text| - ps, 0
    {
      hide Shell.ParseLine, Shell.ParseRedirs;
      SkipTokens(start);
      var _, _ := GetToken();
      r := ParseLine();
      if r.Bad? {
        return;
      }
      ghost var at := Rest();
      var close := Peek(")");
      if !close {
        return Bad(MissingParen);
      }
      SkipTokens(at);
      var _, _ := GetToken();
      var redirs := ParseRedirs();
      if redirs.Bad? {
        return Bad(redirs.error);
      }
      WrapMeaning(text, r.value, redirs.value);
      r := Good(Wrap(r.value, redirs.value));
    }

    method ParsePipe() returns (r: Outcome<Cmd<Span>>)
      requires Valid()
      modifies this`ps
      ensures Valid() && old(ps) <= ps && Agrees(text, Rest(), r, Shell.ParsePipe(old(Rest())))
      decreases |text| - ps, 2
    {
      hide Shell.ParseExec, Skip, Shell.GetToken;
      r := ParseExec();
      if r.Bad? {
        return;
      }
      ghost var at := Rest();
      var pipe := Peek("|");
      if pipe {
        SkipTokens(at);
        var _, _ := GetToken();
        var right := ParsePipe();
        if right.Bad? {
          return right;
        }
        r := Good(Pipe(r.value, right.value));
      }
    }

    method ParseLine() returns (r: Outcome<Cmd<Span>>)
      requires Valid()
      modifies this`ps
      ensures Valid() && old(ps) <= ps && Agrees(text, Rest(), r, Shell.ParseLine(old(Rest())))
      decreases |text| - ps, 3
    {
      hide Shell.ParsePipe, Shell.ParseBacks, Skip, Shell.GetToken;
      r := ParsePipe();
      if r.Bad? {
        return;
      }
      var cmd := ParseBacks(r.value);
      ghost var at := Rest();
      var list := Peek(";");
      if list {
        SkipTokens(at);
        var _, _ := GetToken();
        var right := ParseLine();
        if right.Bad? {
          return right;
        }
        r := Good(List(cmd, right.value));
      } else {
        r := Good(cmd);
      }
    }

    /** The loop of parseline over `&`. */
    method ParseBacks(first: Cmd<Span>) returns (cmd: Cmd<Span>)
      requires Valid() && SpansOk(text, first)
      modifies this`ps
      ensures Valid() && old(ps) <= ps && SpansOk(text, cmd)
      ensures (Meaning(text, cmd), Rest()) == Shell.ParseBacks(Meaning(text, first), old(Rest()))
    {
      ghost var start, at := Rest(), Rest();
      cmd := first;
      var more := Peek("&");
      while more
        invariant Valid() && old(ps) <= ps && SpansOk(text, cmd)
        invariant more == Shell.Peek(at, "&") && Rest() == Skip(at)
        invariant Shell.ParseBacks(Meaning(text, first), start) == Shell.ParseBacks(Meaning(text, cmd), at)
        decreases |text| - ps
      {
        SkipTokens(at);
        var _, _ := GetToken();
        cmd := Back(cmd);
        at := Rest();
        more := Peek("&");
      }
    }

    /** parsecmd up to nulterminate. */
    method ParseCmd() returns (r: Outcome<Cmd<Span>>)
      requires Valid() && ps == 0
      modifies this`ps
      ensures Valid()
      ensures match Shell.ParseCmd(text)
              case Panic(e) => r == Bad(e)
              case Ok(v, _) => r.Good? && Meaning(text, r.value) == v && SpansOk(text, r.value)
      ensures forall c :: Derives(text, c) <==> r.Good? && c == Meaning(text, r.value)
    {
      hide Shell.ParseLine, Derives;
      DerivedAlone(text);
      assert Rest() == text;
      r := ParseLine();
      if r.Bad? {
        return;
      }
      var _ := Peek("");
      if ps != buf.Length - 1 {
        return Bad(Leftovers);
      }
    }
  }

  ghost predicate ArgsOk(text: string, argv: seq<Span>) {
    forall i :: 0 <= i < |argv| ==> SpanOk(text, argv[i])
  }

  lemma ArgsMore(text: string, argv: seq<Span>, w: Span)
    ensures ReadAll(text, argv + [w]) == ReadAll(text, argv) + [Read(text, w)]
  {
  }

  lemma RedirsConcat(text: string, a: seq<(Span, Mode)>, b: seq<(Span, Mode)>)
    ensures ReadRedirs(text, a + b) == ReadRedirs(text, a) + ReadRedirs(text, b)
  {
  }

  lemma RedirsFromSkip(s: string)
    ensures Shell.ParseRedirs(Skip(s)) == Shell.ParseRedirs(s)
  {
    assert Skip(Skip(s)) == Skip(s);
    SkipTokens(s);
  }

  lemma PrependNone(p: Parsed<seq<(string, Mode)>>)
    ensures Prepend([], p) == p
  {
    if p.Ok? {
      assert [] + p.value == p.value;
    }
  }

  lemma RedirStep(acc: seq<(string, Mode)>, s: string)
    requires Shell.Peek(s, "<>") && Shell.GetToken(Shell.GetToken(s).rest).kind == 'a'
    ensures var op := Shell.GetToken(s);
            var file := Shell.GetToken(op.rest);
            Prepend(acc, Shell.ParseRedirs(s)) ==
            Prepend(acc + [(file.text, if op.kind == '<' then Input else Output)], Shell.ParseRedirs(file.rest))
  {
    var op := Shell.GetToken(s);
    var file := Shell.GetToken(op.rest);
    var x := (file.text, if op.kind == '<' then Input else Output);
    var more := Shell.ParseRedirs(file.rest);
    if more.Ok? {
      assert acc + ([x] + more.value) == acc + [x] + more.value;
    }
  }

  lemma ReadMore(text: string, rs: seq<(Span, Mode)>, w: Span, mode: Mode)
    ensures ReadRedirs(text, rs + [(w, mode)]) == ReadRedirs(text, rs) + [(Read(text, w), mode)]
  {
  }

  lemma SkipTokens(s: string)
    ensures Shell.GetToken(Skip(s)) == Shell.GetToken(s)
    ensures Shell.GetToken(s).kind == '\0' <==> Skip(s) == ""
  {
    TokenFront(s);
    TokenFront(Skip(s));
  }

  // ---------- nulterminate ----------

  /** Position i follows some string of the tree. */
  ghost predicate EndsAt(c: Cmd<Span>, i: nat) {
    match c
    case Exec(argv) => exists k :: 0 <= k < |argv| && argv[k].eq == i
    case Redir(cmd, file, _) => EndsAt(cmd, i) || file.eq == i
    case Pipe(left, right) => EndsAt(left, i) || EndsAt(right, i)
    case List(left, right) => EndsAt(left, i) || EndsAt(right, i)
    case Back(cmd) => EndsAt(cmd, i)
  }

  /** The buffer with a NUL at the end of every string of the tree. */
  ghost predicate Terminated(before: seq<char>, after: seq<char>, c: Cmd<Span>) {
    |after| == |before| && forall i :: 0 <= i < |after| ==> after[i] == if EndsAt(c, i) then '\0' else before[i]
  }

  lemma {:induction false} EndsInside(text: string, c: Cmd<Span>, i: nat)
    requires SpansOk(text, c) && EndsAt(c, i)
    ensures i <= |text| && (i < |text| ==> !IsWordChar(text[i]))
  {
    match c
    case Exec(argv) =>
      var k :| 0 <= k < |argv| && argv[k].eq == i;
      assert SpanOk(text, argv[k]);
    case Redir(cmd, file, _) => if EndsAt(cmd, i) { EndsInside(text, cmd, i); }
    case Pipe(left, right) => if EndsAt(left, i) { EndsInside(text, left, i); } else { EndsInside(text, right, i); }
    case List(left, right) => if EndsAt(left, i) { EndsInside(text, left, i); } else { EndsInside(text, right, i); }
    case Back(cmd) => EndsInside(text, cmd, i);
  }

  /** nulterminate: a NUL after every string of the tree and nothing else changed. */
  method NulTerminate(buf: array<char>, c: Cmd<Span>, ghost text: string)
    requires buf.Length == |text| + 1 && SpansOk(text, c)
    modifies buf
    ensures Terminated(old(buf[..]), buf[..], c)
    decreases c
  {
    match c
    case Exec(argv) =>
      var i := 0;
      while i < |argv|
        invariant i <= |argv|
        invariant forall j :: 0 <= j < buf.Length ==>
                    buf[j] == if exists k :: 0 <= k < i && argv[k].eq == j then '\0' else old(buf[j])
      {
        assert SpanOk(text, argv[i]);
        buf[argv[i].eq] := '\0';
        i := i + 1;
      }
    case Redir(cmd, file, _) =>
      NulTerminate(buf, cmd, text);
      buf[file.eq] := '\0';
    case Pipe(left, right) =>
      NulTerminate(buf, left, text);
      NulTerminate(buf, right, text);
    case List(left, right) =>
      NulTerminate(buf, left, text);
      NulTerminate(buf, right, text);
    case Back(cmd) =>
      NulTerminate(buf, cmd, text);
  }

  /** Memory read as a C string. */
  ghost function CString(b: seq<char>, i: nat): string
    decreases |b| - i
  {
    if i < |b| && b[i] != '\0' then [b[i]] + CString(b, i + 1) else ""
  }

  ghost function CStrings(b: seq<char>, ws: seq<Span>): (r: seq<string>)
    ensures |r| == |ws|
  {
    seq(|ws|, i requires 0 <= i < |ws| => CString(b, ws[i].q))
  }

  /** The tree as runcmd sees it: every string read from memory up to its NUL. */
  ghost function Stored(b: seq<char>, c: Cmd<Span>): Cmd<string> {
    match c
    case Exec(argv) => Exec(CStrings(b, argv))
    case Redir(cmd, file, mode) => Redir(Stored(b, cmd), CString(b, file.q), mode)
    case Pipe(left, right) => Pipe(Stored(b, left), Stored(b, right))
    case List(left, right) => List(Stored(b, left), Stored(b, right))
    case Back(cmd) => Back(Stored(b, cmd))
  }

  lemma {:induction false} CStringIs(b: seq<char>, q: nat, eq: nat)
    requires q <= eq < |b| && b[eq] == '\0' && forall i :: q <= i < eq ==> b[i] != '\0'
    ensures CString(b, q) == b[q..eq]
    decreases eq - q
  {
    if q < eq {
      CStringIs(b, q + 1, eq);
      assert b[q..eq] == [b[q]] + b[q + 1..eq];
    }
  }

  /** No word of the text was touched. */
  ghost predicate WordsIntact(text: string, b: seq<char>) {
    |b| == |text| + 1 && forall i :: 0 <= i < |text| && IsWordChar(text[i]) ==> b[i] == text[i]
  }

  lemma SpanReads(text: string, b: seq<char>, w: Span)
    requires SpanOk(text, w) && WordsIntact(text, b) && b[w.eq] == '\0'
    ensures CString(b, w.q) == Read(text, w)
  {
    CStringIs(b, w.q, w.eq);
    assert b[w.q..w.eq] == text[w.q..w.eq];
  }

  lemma {:induction false} StoredIsMeaning(text: string, b: seq<char>, c: Cmd<Span>)
    requires SpansOk(text, c) && WordsIntact(text, b)
    requires forall i: nat :: EndsAt(c, i) && i < |b| ==> b[i] == '\0'
    ensures Stored(b, c) == Meaning(text, c)
  {
    match c
    case Exec(argv) =>
      forall k | 0 <= k < |argv|
        ensures CString(b, argv[k].q) == Read(text, argv[k])
      {
        assert SpanOk(text, argv[k]) && EndsAt(c, argv[k].eq);
        SpanReads(text, b, argv[k]);
      }
      assert CStrings(b, argv) == ReadAll(text, argv);
    case Redir(cmd, file, _) =>
      assert EndsAt(c, file.eq);
      SpanReads(text, b, file);
      forall i | EndsAt(cmd, i) ensures EndsAt(c, i) {}
      StoredIsMeaning(text, b, cmd);
    case Pipe(left, right) =>
      forall i | EndsAt(left, i) || EndsAt(right, i) ensures EndsAt(c, i) {}
      StoredIsMeaning(text, b, left);
      StoredIsMeaning(text, b, right);
    case List(left, right) =>
      forall i | EndsAt(left, i) || EndsAt(right, i) ensures EndsAt(c, i) {}
      StoredIsMeaning(text, b, left);
      StoredIsMeaning(text, b, right);
    case Back(cmd) =>
      forall i | EndsAt(cmd, i) ensures EndsAt(c, i) {}
      StoredIsMeaning(text, b, cmd);
  }

  lemma TerminatedKeepsWords(text: string, b: seq<char>, c: Cmd<Span>)
    requires SpansOk(text, c) && Terminated(text + ['\0'], b, c)
    ensures WordsIntact(text, b)
  {
    forall i | 0 <= i < |text| && IsWordChar(text[i])
      ensures b[i] == text[i]
    {
      if EndsAt(c, i) {
        EndsInside(text, c, i);
        assert false;
      }
    }
  }

  /** parsecmd: the tree it returns, with every string read from the buffer up to its NUL, is the tree of
      the grammar; a panic is the grammar's error. */
  method ParseCommand(buf: array<char>, ghost text: string) returns (r: Outcome<Cmd<Span>>)
    requires buf[..] == text + ['\0'] && '\0' !in text
    modifies buf
    ensures match Shell.ParseCmd(text)
            case Panic(e) => r == Bad(e)
            case Ok(v, _) => r.Good? && Stored(buf[..], r.value) == v
    ensures forall c :: Derives(text, c) <==> r.Good? && c == Stored(buf[..], r.value)
  {
    hide Derives;
    assert buf[..|text|] == buf[..][..|text|] == text && buf[|text|] == buf[..][|text|];
    var p := new Parser(buf, text);
    r := p.ParseCmd();
    if r.Good? {
      NulTerminate(buf, r.value, text);
      TerminatedKeepsWords(text, buf[..], r.value);
      StoredIsMeaning(text, buf[..], r.value);
    }
  }
}
