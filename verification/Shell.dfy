/** The command language of sh.c: its tokens, its grammar as the parser reads it, and a printer.

    The functions here work on the text still to be read; `ShellParser` is the parser over a buffer. */
module Shell {

  const MAXARGS: nat := 10

  datatype Mode = Input | Output   // O_RDONLY on fd 0, or O_WRONLY|O_CREATE on fd 1

  /** Command trees over words. */
  datatype Cmd<W> =
    | Exec(argv: seq<W>)
    | Redir(cmd: Cmd<W>, file: W, mode: Mode)
    | Pipe(left: Cmd<W>, right: Cmd<W>)
    | List(left: Cmd<W>, right: Cmd<W>)
    | Back(cmd: Cmd<W>)

  datatype Error = Syntax | MissingFile | MissingParen | TooManyArgs | Leftovers

  datatype Parsed<T> = Ok(value: T, rest: string) | Panic(error: Error)

  // ---------- tokens ----------

  predicate IsBlank(c: char) {
    c in " \t\r\n\U{0b}"
  }

  predicate IsSymbol(c: char) {
    c in "<|>&;()"
  }

  predicate IsWordChar(c: char) {
    !IsBlank(c) && !IsSymbol(c) && c != '\0'
  }

  function Skip(s: string): (r: string)
    ensures |r| <= |s|
    ensures r == "" || !IsBlank(r[0])
  {
    if s != "" && IsBlank(s[0]) then Skip(s[1..]) else s
  }

  /** The length of the word at the front. */
  function WordLen(s: string): (n: nat)
    ensures n <= |s|
  {
    if s != "" && !IsBlank(s[0]) && !IsSymbol(s[0]) then 1 + WordLen(s[1..]) else 0
  }

  /** The kind of a token as gettoken reports it: the symbol, '+' for >>, 'a' for a word, NUL at the end. */
  datatype Token = Token(kind: char, text: string, rest: string)

  function GetToken(s: string): (t: Token)
    ensures |t.rest| <= |s|
    ensures t.kind != '\0' ==> |t.rest| < |s|
  {
    var s := Skip(s);
    if s == "" then Token('\0', "", "")
    else if s[0] == '>' then
      if |s| > 1 && s[1] == '>' then Token('+', s[..2], Skip(s[2..])) else Token('>', s[..1], Skip(s[1..]))
    else if IsSymbol(s[0]) then Token(s[0], s[..1], Skip(s[1..]))
    else Token('a', s[..WordLen(s)], Skip(s[WordLen(s)..]))
  }

  predicate Peek(s: string, toks: string) {
    var s := Skip(s);
    s != "" && s[0] in toks
  }

  // ---------- the grammar ----------

  /** parseredirs: any number of redirections. */
  function ParseRedirs(s: string): (r: Parsed<seq<(string, Mode)>>)
    ensures r.Ok? ==> |r.rest| <= |s|
    decreases |s|
  {
    if !Peek(s, "<>") then Ok([], Skip(s))
    else
      var op := GetToken(s);
      var file := GetToken(op.rest);
      if file.kind != 'a' then Panic(MissingFile)
      else
        var more := ParseRedirs(file.rest);
        if more.Panic? then more
        else Ok([(file.text, if op.kind == '<' then Input else Output)] + more.value, more.rest)
  }

  function Wrap<W>(cmd: Cmd<W>, redirs: seq<(W, Mode)>): Cmd<W>
    decreases |redirs|
  {
    if redirs == [] then cmd
    else
      var last := redirs[|redirs| - 1];
      Redir(Wrap(cmd, redirs[..|redirs| - 1]), last.0, last.1)
  }

  /** The loop of parseexec: words, each followed by redirections. */
  function ParseArgs(s: string, args: seq<string>, redirs: seq<(string, Mode)>): (r: Parsed<Cmd<string>>)
    ensures r.Ok? ==> |r.rest| <= |s|
    decreases |s|
  {
    if Peek(s, "|)&;") then Ok(Wrap(Exec(args), redirs), Skip(s))
    else
      var t := GetToken(s);
      if t.kind == '\0' then Ok(Wrap(Exec(args), redirs), t.rest)
      else if t.kind != 'a' then Panic(Syntax)
      else if |args| + 1 >= MAXARGS then Panic(TooManyArgs)
      else
        var more := ParseRedirs(t.rest);
        if more.Panic? then Panic(more.error)
        else ParseArgs(more.rest, args + [t.text], redirs + more.value)
  }

  function ParseExec(s: string): (r: Parsed<Cmd<string>>)
    ensures r.Ok? ==> |r.rest| <= |s|
    decreases |s|, 1
  {
    if Peek(s, "(") then ParseBlock(s)
    else
      var first := ParseRedirs(s);
      if first.Panic? then Panic(first.error) else ParseArgs(first.rest, [], first.value)
  }

  function ParseBlock(s: string): (r: Parsed<Cmd<string>>)
    requires Peek(s, "(")
    ensures r.Ok? ==> |r.rest| <= |s|
    decreases |s|, 0
  {
    var line := ParseLine(GetToken(s).rest);
    if line.Panic? then line
    else if !Peek(line.rest, ")") then Panic(MissingParen)
    else
      var redirs := ParseRedirs(GetToken(line.rest).rest);
      if redirs.Panic? then Panic(redirs.error) else Ok(Wrap(line.value, redirs.value), redirs.rest)
  }

  function ParsePipe(s: string): (r: Parsed<Cmd<string>>)
    ensures r.Ok? ==> |r.rest| <= |s|
    decreases |s|, 2
  {
    var left := ParseExec(s);
    if left.Panic? then left
    else if !Peek(left.rest, "|") then Ok(left.value, Skip(left.rest))
    else
      var right := ParsePipe(GetToken(left.rest).rest);
      if right.Panic? then right else Ok(Pipe(left.value, right.value), right.rest)
  }

  /** The loop of parseline over `&`. */
  function ParseBacks(cmd: Cmd<string>, s: string): (r: (Cmd<string>, string))
    ensures |r.1| <= |s|
    decreases |s|
  {
    if Peek(s, "&") then ParseBacks(Back(cmd), GetToken(s).rest) else (cmd, Skip(s))
  }

  function ParseLine(s: string): (r: Parsed<Cmd<string>>)
    ensures r.Ok? ==> |r.rest| <= |s|
    decreases |s|, 3
  {
    var first := ParsePipe(s);
    if first.Panic? then first
    else
      var (cmd, rest) := ParseBacks(first.value, first.rest);
      if !Peek(rest, ";") then Ok(cmd, Skip(rest))
      else
        var right := ParseLine(GetToken(rest).rest);
        if right.Panic? then right else Ok(List(cmd, right.value), right.rest)
  }

  /** parsecmd: a line, and nothing after it. */
  function ParseCmd(s: string): Parsed<Cmd<string>> {
    var line := ParseLine(s);
    if line.Panic? then line
    else if Skip(line.rest) != "" then Panic(Leftovers)
    else Ok(line.value, "")
  }

  // ---------- the trees the parser can produce ----------

  predicate IsWord(w: string) {
    w != "" && forall i :: 0 <= i < |w| ==> IsWordChar(w[i])
  }

  predicate WellFormed(c: Cmd<string>) {
    match c
    case Exec(argv) => |argv| < MAXARGS && forall i :: 0 <= i < |argv| ==> IsWord(argv[i])
    case Redir(cmd, file, _) => WellFormed(cmd) && IsWord(file)
    case Pipe(left, right) => WellFormed(left) && WellFormed(right)
    case List(left, right) => WellFormed(left) && WellFormed(right)
    case Back(cmd) => WellFormed(cmd)
  }

  // ---------- printing ----------

  function PrintWords(ws: seq<string>): string {
    if ws == [] then "" else ws[0] + " " + PrintWords(ws[1..])
  }

  function PrintRedir(file: string, mode: Mode): string {
    (if mode == Input then "< " else "> ") + file + " "
  }

  /** A command where the grammar wants an exec command or a block. */
  function PrintExec(c: Cmd<string>): string
    decreases c, if c.Exec? || c.Redir? then 0 else 4
  {
    match c
    case Exec(argv) => PrintWords(argv)
    case Redir(cmd, file, mode) => PrintExec(cmd) + PrintRedir(file, mode)
    case _ => "( " + PrintLine(c) + ") "
  }

  function PrintPipe(c: Cmd<string>): string
    requires c.Exec? || c.Redir? || c.Pipe?
    decreases c, 1
  {
    if !c.Pipe? then PrintExec(c)
    else PrintExec(c.left) + "| " + if c.right.Exec? || c.right.Redir? || c.right.Pipe? then PrintPipe(c.right) else PrintExec(c.right)
  }

  function PrintBack(c: Cmd<string>): string
    decreases c, if c.List? then 5 else 2
  {
    match c
    case Back(cmd) => PrintBack(cmd) + "& "
    case List(_, _) => PrintExec(c)
    case _ => PrintPipe(c)
  }

  function PrintLine(c: Cmd<string>): string
    decreases c, 3
  {
    if c.List? then PrintBack(c.left) + "; " + PrintLine(c.right) else PrintBack(c)
  }
}
