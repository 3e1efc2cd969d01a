/** The shell's parser, sh.c: tokens, the recursive descent over lines, pipelines,
    commands and blocks, and the NUL termination of its words in place. */
module Shell {
  import opened Machine

  const MAXARGS := 10
  const O_RDONLY := 0
  const O_WRONLY_CREATE := 0x201

  /** A token's text is the buffer from q up to eq. */
  datatype Tok = Tok(q: nat, eq: nat)

  datatype Cmd =
    | Exec(argv: seq<Tok>)
    | Redir(cmd: Cmd, file: Tok, mode: nat, fd: nat)
    | Pipe(left: Cmd, right: Cmd)
    | List(left: Cmd, right: Cmd)
    | Back(cmd: Cmd)

  /** A parser's answer: the command and how far it read, or a panic. */
  datatype Result = Ok(cmd: Cmd, next: nat) | Panic

  predicate IsSpace(c: char) {
    c == ' ' || c == '\t' || c == '\r' || c == '\n' || c == '\U{0B}'
  }

  predicate IsSymbol(c: char) {
    c == '<' || c == '|' || c == '>' || c == '&' || c == ';' || c == '(' || c == ')'
  }

  predicate IsWord(c: char) {
    c != '\0' && !IsSpace(c) && !IsSymbol(c)
  }

  /** The character at i, NUL at the end. */
  function Ch(t: string, i: nat): char {
    if i < |t| then t[i] else '\0'
  }

  // ---- Tokens ----

  function Skip(t: string, i: nat): (j: nat)
    requires i <= |t|
    ensures i <= j <= |t| && !IsSpace(Ch(t, j))
    decreases |t| - i
  {
    if i < |t| && IsSpace(t[i]) then Skip(t, i + 1) else i
  }

  function WordEnd(t: string, i: nat): (j: nat)
    requires i <= |t|
    ensures i <= j <= |t| && !IsWord(Ch(t, j))
    decreases |t| - i
  {
    if i < |t| && IsWord(t[i]) then WordEnd(t, i + 1) else i
  }

  /** kind is the symbol itself, '+' for ">>", 'a' for a word, NUL at the end. */
  datatype Token = Token(kind: char, q: nat, eq: nat, next: nat)

  function Gettoken(t: string, i: nat): (r: Token)
    requires i <= |t|
    ensures i <= r.q <= r.eq <= r.next <= |t| && r.q == Skip(t, i) && r.next == Skip(t, r.eq)
    ensures r.kind != '\0' ==> r.q < r.eq
  {
    var s := Skip(t, i);
    var c := Ch(t, s);
    if c == '\0' then Token(c, s, s, Skip(t, s))
    else if c == '>' then
      if Ch(t, s + 1) == '>' then Token('+', s, s + 2, Skip(t, s + 2)) else Token('>', s, s + 1, Skip(t, s + 1))
    else if IsSymbol(c) then Token(c, s, s + 1, Skip(t, s + 1))
    else Token('a', s, WordEnd(t, s), Skip(t, WordEnd(t, s)))
  }

  // ---- Redirections ----

  datatype Redirection = Redirection(file: Tok, mode: nat, fd: nat)

  /** "<" reads the file as descriptor 0, ">" and ">>" write it as descriptor 1. */
  function RedirTo(file: Tok, fd: nat): Redirection {
    Redirection(file, if fd == 0 then O_RDONLY else O_WRONLY_CREATE, if fd == 0 then 0 else 1)
  }

  datatype RedirResult = Redirs(rs: seq<Redirection>, end: nat) | NoFile

  function Redirected(cmd: Cmd, rs: seq<Redirection>): Cmd {
    if rs == [] then cmd
    else
      var r := rs[|rs| - 1];
      Redir(Redirected(cmd, rs[..|rs| - 1]), r.file, r.mode, r.fd)
  }

  /** parseredirs: the redirections from i on, in order. */
  function ParseRedirs(t: string, i: nat, rs: seq<Redirection>): (r: RedirResult)
    requires i <= |t|
    ensures r.Redirs? ==> Skip(t, i) <= r.end <= |t| && r.end == Skip(t, r.end)
    decreases |t| - i
  {
    var s := Skip(t, i);
    if Ch(t, s) == '<' || Ch(t, s) == '>' then
      var tok := Gettoken(t, s);
      var word := Gettoken(t, tok.next);
      if word.kind != 'a' then NoFile
      else
        ParseRedirs(t, word.next, rs + [RedirTo(Tok(word.q, word.eq), if tok.kind == '<' then 0 else 1)])
    else Redirs(rs, s)
  }

  // ---- Commands ----

  /** parseexec's loop: words, each followed by redirections. */
  function ParseArgs(t: string, i: nat, argv: seq<Tok>, rs: seq<Redirection>): (r: Result)
    requires i <= |t|
    ensures r.Ok? ==> i <= r.next <= |t|
    decreases |t| - i
  {
    var s := Skip(t, i);
    var c := Ch(t, s);
    if c == '|' || c == ')' || c == '&' || c == ';' then Ok(Redirected(Exec(argv), rs), s)
    else
      var word := Gettoken(t, s);
      if word.kind == '\0' then Ok(Redirected(Exec(argv), rs), word.next)
      else if word.kind != 'a' || |argv| + 1 >= MAXARGS then Panic
      else
        match ParseRedirs(t, word.next, rs)
        case NoFile => Panic
        case Redirs(rs', j) => ParseArgs(t, j, argv + [Tok(word.q, word.eq)], rs')
  }

  function ParseExec(t: string, i: nat): (r: Result)
    requires i <= |t|
    ensures r.Ok? ==> i <= r.next <= |t|
    decreases |t| - i, 1
  {
    if Ch(t, Skip(t, i)) == '(' then ParseBlock(t, Skip(t, i))
    else
      match ParseRedirs(t, i, [])
      case NoFile => Panic
      case Redirs(rs, j) => ParseArgs(t, j, [], rs)
  }

  function ParseBlock(t: string, i: nat): (r: Result)
    requires i <= |t|
    ensures r.Ok? ==> i <= r.next <= |t|
    decreases |t| - i, 0
  {
    var s := Skip(t, i);
    if Ch(t, s) != '(' then Panic
    else
      match ParseLine(t, Gettoken(t, s).next)
      case Panic => Panic
      case Ok(cmd, j) =>
        var e := Skip(t, j);
        if Ch(t, e) != ')' then Panic
        else
          match ParseRedirs(t, Gettoken(t, e).next, [])
          case NoFile => Panic
          case Redirs(rs, k) => Ok(Redirected(cmd, rs), k)
  }

  function ParsePipe(t: string, i: nat): (r: Result)
    requires i <= |t|
    ensures r.Ok? ==> i <= r.next <= |t|
    decreases |t| - i, 2
  {
    match ParseExec(t, i)
    case Panic => Panic
    case Ok(cmd, j) =>
      var s := Skip(t, j);
      if Ch(t, s) != '|' then Ok(cmd, s)
      else
        match ParsePipe(t, Gettoken(t, s).next)
        case Panic => Panic
        case Ok(right, k) => Ok(Pipe(cmd, right), k)
  }

  /** parseline's loop: one Back for each '&'. */
  function ParseBacks(t: string, i: nat, cmd: Cmd): (r: (Cmd, nat))
    requires i <= |t|
    ensures i <= r.1 <= |t| && r.1 == Skip(t, r.1)
    decreases |t| - i
  {
    var s := Skip(t, i);
    if Ch(t, s) == '&' then ParseBacks(t, Gettoken(t, s).next, Back(cmd)) else (cmd, s)
  }

  function ParseLine(t: string, i: nat): (r: Result)
    requires i <= |t|
    ensures r.Ok? ==> i <= r.next <= |t|
    decreases |t| - i, 3
  {
    match ParsePipe(t, i)
    case Panic => Panic
    case Ok(first, j) =>
      var (cmd, s) := ParseBacks(t, j, first);
      if Ch(t, s) != ';' then Ok(cmd, s)
      else
        match ParseLine(t, Gettoken(t, s).next)
        case Panic => Panic
        case Ok(right, k) => Ok(List(cmd, right), k)
  }

  /** parsecmd, before it NUL-terminates: the whole line must be read. */
  function ParseCmd(t: string): Result {
    match ParseLine(t, 0)
    case Panic => Panic
    case Ok(cmd, j) => if Skip(t, j) == |t| then Ok(cmd, j) else Panic
  }

  // ---- Trees ----

  /** A command with its words as text. */
  datatype Tree =
    | TExec(words: seq<string>)
    | TRedir(cmd: Tree, file: string, mode: nat, fd: nat)
    | TPipe(left: Tree, right: Tree)
    | TList(left: Tree, right: Tree)
    | TBack(cmd: Tree)

  predicate InText(t: string, w: Tok) {
    w.q <= w.eq <= |t|
  }

  function TextOf(t: string, w: Tok): string {
    if InText(t, w) then t[w.q..w.eq] else ""
  }

  function TextsOf(t: string, ws: seq<Tok>): (r: seq<string>)
    ensures |r| == |ws| && forall k :: 0 <= k < |ws| ==> r[k] == TextOf(t, ws[k])
  {
    if ws == [] then [] else TextsOf(t, ws[..|ws| - 1]) + [TextOf(t, ws[|ws| - 1])]
  }

  function Meaning(t: string, cmd: Cmd): Tree {
    match cmd
    case Exec(argv) => TExec(TextsOf(t, argv))
    case Redir(c, file, mode, fd) => TRedir(Meaning(t, c), TextOf(t, file), mode, fd)
    case Pipe(l, r) => TPipe(Meaning(t, l), Meaning(t, r))
    case List(l, r) => TList(Meaning(t, l), Meaning(t, r))
    case Back(c) => TBack(Meaning(t, c))
  }

  predicate IsWordText(w: string) {
    |w| > 0 && forall k :: 0 <= k < |w| ==> IsWord(w[k])
  }

  /** The modes and descriptors the parser gives out. */
  predicate GoodMode(mode: nat, fd: nat) {
    (mode == O_RDONLY && fd == 0) || (mode == O_WRONLY_CREATE && fd == 1)
  }

  /** What the parser can build: at most nine words to a command, and the two kinds
      of redirection. */
  predicate Printable(c: Tree) {
    match c
    case TExec(words) => |words| < MAXARGS && forall k :: 0 <= k < |words| ==> IsWordText(words[k])
    case TRedir(d, file, mode, fd) =>
      Printable(d) && IsWordText(file) && GoodMode(mode, fd)
    case TPipe(l, r) => Printable(l) && Printable(r)
    case TList(l, r) => Printable(l) && Printable(r)
    case TBack(d) => Printable(d)
  }

  // ---- Tokens in a text ----

  /** s stands in t at i. */
  predicate Has(t: string, i: nat, s: string) {
    i + |s| <= |t| && t[i..i + |s|] == s
  }

  lemma HasBoth(t: string, i: nat, a: string, b: string)
    ensures Has(t, i, a + b) <==> Has(t, i, a) && Has(t, i + |a|, b)
  {
    if Has(t, i, a + b) {
      assert t[i..i + |a|] == t[i..i + |a + b|][..|a|] == a;
      assert t[i + |a|..i + |a| + |b|] == t[i..i + |a + b|][|a|..] == b;
    }
    if Has(t, i, a) && Has(t, i + |a|, b) {
      assert t[i..i + |a + b|] == t[i..i + |a|] + t[i + |a|..i + |a| + |b|];
    }
  }

  lemma HasAt(t: string, i: nat, s: string, k: nat)
    requires Has(t, i, s) && k < |s|
    ensures Ch(t, i + k) == s[k] && i + k < |t|
  {
    assert t[i..i + |s|][k] == t[i + k];
  }

  lemma Still(t: string, i: nat)
    requires i <= |t| && !IsSpace(Ch(t, i))
    ensures Skip(t, i) == i
  {
  }

  /** A word in the text, followed by something else, is one token. */
  lemma WordToken(t: string, i: nat, w: string)
    requires Has(t, i, w) && IsWordText(w) && !IsWord(Ch(t, i + |w|))
    ensures Gettoken(t, i) == Token('a', i, i + |w|, Skip(t, i + |w|)) && TextOf(t, Tok(i, i + |w|)) == w
  {
    HasAt(t, i, w, 0);
    Still(t, i);
    WordRun(t, i, w, 0);
  }

  lemma {:induction false} WordRun(t: string, i: nat, w: string, k: nat)
    requires Has(t, i, w) && IsWordText(w) && !IsWord(Ch(t, i + |w|)) && k <= |w|
    ensures WordEnd(t, i + k) == i + |w|
    decreases |w| - k
  {
    if k < |w| {
      HasAt(t, i, w, k);
      WordRun(t, i, w, k + 1);
    }
  }

  lemma NoRedirs(t: string, i: nat, rs: seq<Redirection>)
    requires i <= |t| && Ch(t, Skip(t, i)) != '<' && Ch(t, Skip(t, i)) != '>'
    ensures ParseRedirs(t, i, rs) == Redirs(rs, Skip(t, i))
  {
  }

  lemma EndToken(t: string, i: nat)
    requires i == |t|
    ensures Gettoken(t, i) == Token('\0', i, i, i)
  {
  }

  lemma TextsMore(t: string, ws: seq<Tok>, w: Tok)
    ensures TextsOf(t, ws + [w]) == TextsOf(t, ws) + [TextOf(t, w)]
  {
    assert (ws + [w])[..|ws + [w]| - 1] == ws;
  }

  lemma SkipOne(t: string, i: nat)
    requires i < |t| && IsSpace(t[i])
    ensures Skip(t, i) == Skip(t, i + 1)
  {
  }

  /** One redirection read. */
  lemma RedirStep(t: string, e: nat, rs: seq<Redirection>)
    requires e < |t| && Skip(t, e) == e && (Ch(t, e) == '<' || Ch(t, e) == '>')
    requires Gettoken(t, Gettoken(t, e).next).kind == 'a'
    ensures var tok, word := Gettoken(t, e), Gettoken(t, Gettoken(t, e).next);
            ParseRedirs(t, e, rs)
            == ParseRedirs(t, word.next, rs + [RedirTo(Tok(word.q, word.eq), if tok.kind == '<' then 0 else 1)])
  {
    hide Skip, Gettoken, RedirTo;
  }

  // ---- Words are whole runs of word characters ----

  /** w is a longest run of word characters in t. */
  predicate IsRun(t: string, w: Tok) {
    && w.q < w.eq <= |t| && !IsWord(Ch(t, w.eq))
    && forall k {:trigger t[k]} :: w.q <= k < w.eq ==> IsWord(t[k])
  }

  /** The words of a command, in the order nulterminate comes to them. */
  function Toks(cmd: Cmd): seq<Tok> {
    match cmd
    case Exec(argv) => argv
    case Redir(c, file, _, _) => Toks(c) + [file]
    case Pipe(l, r) => Toks(l) + Toks(r)
    case List(l, r) => Toks(l) + Toks(r)
    case Back(c) => Toks(c)
  }

  predicate AllRuns(t: string, ws: seq<Tok>) {
    forall k {:trigger ws[k]} :: 0 <= k < |ws| ==> IsRun(t, ws[k])
  }

  lemma {:induction false} WordEndRun(t: string, i: nat)
    requires i <= |t|
    ensures forall k {:trigger t[k]} :: i <= k < WordEnd(t, i) ==> IsWord(t[k])
    decreases |t| - i
  {
    if i < |t| && IsWord(t[i]) { WordEndRun(t, i + 1); }
  }

  lemma TokenRun(t: string, i: nat)
    requires i <= |t| && Gettoken(t, i).kind == 'a'
    ensures IsRun(t, Tok(Gettoken(t, i).q, Gettoken(t, i).eq))
  {
    hide Skip;
    WordEndRun(t, Skip(t, i));
  }

  ghost predicate RedirRuns(t: string, rs: seq<Redirection>) {
    forall k {:trigger rs[k]} :: 0 <= k < |rs| ==> IsRun(t, rs[k].file) && GoodMode(rs[k].mode, rs[k].fd)
  }

  /** Not too many arguments, and no other redirections. */
  predicate Shaped(cmd: Cmd) {
    match cmd
    case Exec(argv) => |argv| < MAXARGS
    case Redir(c, _, mode, fd) => Shaped(c) && GoodMode(mode, fd)
    case Pipe(l, r) => Shaped(l) && Shaped(r)
    case List(l, r) => Shaped(l) && Shaped(r)
    case Back(c) => Shaped(c)
  }

  lemma {:induction false} RedirsRun(t: string, i: nat, rs: seq<Redirection>)
    requires i <= |t| && RedirRuns(t, rs) && ParseRedirs(t, i, rs).Redirs?
    ensures RedirRuns(t, ParseRedirs(t, i, rs).rs)
    decreases |t| - i
  {
    hide Gettoken, Skip, IsRun;
    var s := Skip(t, i);
    if Ch(t, s) == '<' || Ch(t, s) == '>' {
      var tok := Gettoken(t, s);
      var word := Gettoken(t, tok.next);
      TokenRun(t, tok.next);
      RedirsRun(t, word.next, rs + [RedirTo(Tok(word.q, word.eq), if tok.kind == '<' then 0 else 1)]);
    }
  }

  lemma {:induction false} RedirectedRuns(t: string, cmd: Cmd, rs: seq<Redirection>)
    requires AllRuns(t, Toks(cmd)) && Shaped(cmd) && RedirRuns(t, rs)
    ensures AllRuns(t, Toks(Redirected(cmd, rs))) && Shaped(Redirected(cmd, rs))
  {
    hide IsRun;
    if rs != [] { RedirectedRuns(t, cmd, rs[..|rs| - 1]); }
  }

  lemma {:induction false} ArgsRun(t: string, i: nat, argv: seq<Tok>, rs: seq<Redirection>)
    requires i <= |t| && AllRuns(t, argv) && |argv| < MAXARGS && RedirRuns(t, rs) && ParseArgs(t, i, argv, rs).Ok?
    ensures AllRuns(t, Toks(ParseArgs(t, i, argv, rs).cmd)) && Shaped(ParseArgs(t, i, argv, rs).cmd)
    decreases |t| - i
  {
    hide Gettoken, Skip, IsRun, ParseRedirs;
    RedirectedRuns(t, Exec(argv), rs);
    var s := Skip(t, i);
    var c := Ch(t, s);
    if !(c == '|' || c == ')' || c == '&' || c == ';') {
      var word := Gettoken(t, s);
      if word.kind == 'a' {
        TokenRun(t, s);
        RedirsRun(t, word.next, rs);
        var r := ParseRedirs(t, word.next, rs);
        ArgsRun(t, r.end, argv + [Tok(word.q, word.eq)], r.rs);
      }
    }
  }

  lemma {:induction false} ExecRuns(t: string, i: nat)
    requires i <= |t| && ParseExec(t, i).Ok?
    ensures AllRuns(t, Toks(ParseExec(t, i).cmd)) && Shaped(ParseExec(t, i).cmd)
    decreases |t| - i, 1
  {
    hide Gettoken, Skip, IsRun, ParseRedirs, ParseArgs, ParseBlock;
    if Ch(t, Skip(t, i)) == '(' {
      BlockRuns(t, Skip(t, i));
    } else {
      RedirsRun(t, i, []);
      var r := ParseRedirs(t, i, []);
      ArgsRun(t, r.end, [], r.rs);
    }
  }

  lemma {:induction false} BlockRuns(t: string, i: nat)
    requires i <= |t| && ParseBlock(t, i).Ok?
    ensures AllRuns(t, Toks(ParseBlock(t, i).cmd)) && Shaped(ParseBlock(t, i).cmd)
    decreases |t| - i, 0
  {
    hide Skip, IsRun, ParseRedirs, ParseLine;
    var s := Skip(t, i);
    var j := Gettoken(t, s).next;
    LineRuns(t, j);
    var r := ParseLine(t, j);
    var e := Gettoken(t, Skip(t, r.next)).next;
    RedirsRun(t, e, []);
    RedirectedRuns(t, r.cmd, ParseRedirs(t, e, []).rs);
  }

  lemma {:induction false} PipeRuns(t: string, i: nat)
    requires i <= |t| && ParsePipe(t, i).Ok?
    ensures AllRuns(t, Toks(ParsePipe(t, i).cmd)) && Shaped(ParsePipe(t, i).cmd)
    decreases |t| - i, 2
  {
    hide Skip, IsRun, ParseExec;
    ExecRuns(t, i);
    var s := Skip(t, ParseExec(t, i).next);
    if Ch(t, s) == '|' { PipeRuns(t, Gettoken(t, s).next); }
  }

  lemma {:induction false} BacksRuns(t: string, i: nat, cmd: Cmd)
    requires i <= |t|
    ensures Toks(ParseBacks(t, i, cmd).0) == Toks(cmd) && Shaped(ParseBacks(t, i, cmd).0) == Shaped(cmd)
    decreases |t| - i
  {
    hide Skip;
    if Ch(t, Skip(t, i)) == '&' { BacksRuns(t, Gettoken(t, Skip(t, i)).next, Back(cmd)); }
  }

  lemma {:induction false} LineRuns(t: string, i: nat)
    requires i <= |t| && ParseLine(t, i).Ok?
    ensures AllRuns(t, Toks(ParseLine(t, i).cmd)) && Shaped(ParseLine(t, i).cmd)
    decreases |t| - i, 3
  {
    hide Skip, IsRun, ParsePipe, ParseBacks;
    PipeRuns(t, i);
    var first := ParsePipe(t, i);
    BacksRuns(t, first.next, first.cmd);
    var s := ParseBacks(t, first.next, first.cmd).1;
    if Ch(t, s) == ';' { LineRuns(t, Gettoken(t, s).next); }
  }

  /** So what is parsed is printable. */
  lemma {:induction false} RunsPrintable(t: string, cmd: Cmd)
    requires AllRuns(t, Toks(cmd)) && Shaped(cmd)
    ensures Printable(Meaning(t, cmd))
  {
    match cmd
    case Exec(argv) =>
      forall k | 0 <= k < |argv| ensures IsWordText(TextOf(t, argv[k])) {
        assert IsRun(t, argv[k]);
      }
    case Redir(c, file, mode, fd) =>
      SplitRuns(t, Toks(c), [file]);
      assert IsRun(t, [file][0]);
      RunsPrintable(t, c);
    case Pipe(l, r) =>
      SplitRuns(t, Toks(l), Toks(r));
      RunsPrintable(t, l);
      RunsPrintable(t, r);
    case List(l, r) =>
      SplitRuns(t, Toks(l), Toks(r));
      RunsPrintable(t, l);
      RunsPrintable(t, r);
    case Back(c) =>
      RunsPrintable(t, c);
  }

  lemma SplitRuns(t: string, a: seq<Tok>, b: seq<Tok>)
    requires AllRuns(t, a + b)
    ensures AllRuns(t, a) && AllRuns(t, b)
  {
    hide IsRun;
    forall k | 0 <= k < |a| ensures IsRun(t, a[k]) { assert (a + b)[k] == a[k]; }
    forall k | 0 <= k < |b| ensures IsRun(t, b[k]) { assert (a + b)[|a| + k] == b[k]; }
  }

  // ---- NUL termination in place ----

  /** buf with a NUL at the end of each of the words. */
  function Cut(buf: string, ws: seq<Tok>): (r: string)
    ensures |r| == |buf|
  {
    if ws == [] then buf
    else
      var b := Cut(buf, ws[..|ws| - 1]);
      var e := ws[|ws| - 1].eq;
      if e < |b| then b[e := '\0'] else b
  }
  lemma {:induction false} CutAt(buf: string, ws: seq<Tok>, k: nat)
    requires k < |buf|
    ensures (exists j :: 0 <= j < |ws| && ws[j].eq == k) ==> Cut(buf, ws)[k] == '\0'
    ensures (forall j :: 0 <= j < |ws| ==> ws[j].eq != k) ==> Cut(buf, ws)[k] == buf[k]
  {
    if ws != [] { CutAt(buf, ws[..|ws| - 1], k); }
  }

  lemma {:induction false} CStringTo(buf: string, q: nat, e: nat)
    requires q <= e < |buf| && buf[e] == '\0' && forall k :: q <= k < e ==> buf[k] != '\0'
    ensures CString(buf, q, '\0') == buf[q..e]
    decreases e - q
  {
    if q < e {
      CStringTo(buf, q + 1, e);
      assert buf[q..e] == [buf[q]] + buf[q + 1..e];
    }
  }

  /** The ends of words lie outside all words, so cutting at every end leaves each
      word, read as a C string, just what it was. */
  lemma CutKeepsWords(t: string, ws: seq<Tok>, j: nat)
    requires AllRuns(t, ws) && j < |ws|
    ensures CString(Cut(t + "\0", ws), ws[j].q, '\0') == t[ws[j].q..ws[j].eq]
  {
    hide Cut, CString;
    var w, buf := ws[j], t + "\0";
    var r := Cut(buf, ws);
    assert IsRun(t, w);
    CutAt(buf, ws, w.eq);
    forall k | w.q <= k < w.eq ensures r[k] == t[k] && t[k] != '\0' {
      assert IsWord(t[k]);
      forall i | 0 <= i < |ws| ensures ws[i].eq != k {
        assert IsRun(t, ws[i]);
      }
      CutAt(buf, ws, k);
    }
    CStringTo(r, w.q, w.eq);
    assert r[w.q..w.eq] == t[w.q..w.eq];
  }

  /** After parsecmd, every argument and file name reads as exactly its own text. */
  lemma NulTermination(t: string, j: nat)
    requires ParseCmd(t).Ok? && j < |Toks(ParseCmd(t).cmd)|
    ensures var ws := Toks(ParseCmd(t).cmd);
            var w := ws[j];
            w.q < w.eq <= |t| && CString(Cut(t + "\0", ws), w.q, '\0') == t[w.q..w.eq]
  {
    hide ParseLine, Cut, CString;
    LineRuns(t, 0);
    var ws := Toks(ParseCmd(t).cmd);
    assert IsRun(t, ws[j]);
    CutKeepsWords(t, ws, j);
  }

  // ---- The code ----

  method SkipSpace(t: string, i: nat) returns (s: nat)
    requires i <= |t|
    ensures s == Skip(t, i)
  {
    s := i;
    while s < |t| && IsSpace(t[s])
      invariant i <= s <= |t| && Skip(t, s) == Skip(t, i)
    {
      s := s + 1;
    }
  }

  method GetTok(t: string, i: nat) returns (r: Token)
    requires i <= |t|
    ensures r == Gettoken(t, i)
  {
    var s := SkipSpace(t, i);
    var q, c := s, Ch(t, s);
    var kind := c;
    if c == '\0' {
    } else if c == '|' || c == '(' || c == ')' || c == ';' || c == '&' || c == '<' {
      s := s + 1;
    } else if c == '>' {
      s := s + 1;
      if Ch(t, s) == '>' {
        kind := '+';
        s := s + 1;
      }
    } else {
      kind := 'a';
      while s < |t| && IsWord(t[s])
        invariant q <= s <= |t| && WordEnd(t, s) == WordEnd(t, q)
      {
        s := s + 1;
      }
    }
    var eq := s;
    s := SkipSpace(t, s);
    r := Token(kind, q, eq, s);
  }

  method Redirections(t: string, i: nat, rs0: seq<Redirection>) returns (r: RedirResult)
    requires i <= |t|
    ensures r == ParseRedirs(t, i, rs0)
  {
    hide Gettoken, Skip;
    var rs := rs0;
    var s := SkipSpace(t, i);
    ghost var at := i;
    while Ch(t, s) == '<' || Ch(t, s) == '>'
      invariant at <= s <= |t| && s == Skip(t, at) && ParseRedirs(t, at, rs) == ParseRedirs(t, i, rs0)
      decreases |t| - at
    {
      var tok := GetTok(t, s);
      var word := GetTok(t, tok.next);
      if word.kind != 'a' { return NoFile; }
      rs := rs + [RedirTo(Tok(word.q, word.eq), if tok.kind == '<' then 0 else 1)];
      at := word.next;
      s := SkipSpace(t, word.next);
    }
    r := Redirs(rs, s);
  }

  method Arguments(t: string, i: nat, rs0: seq<Redirection>) returns (r: Result)
    requires i <= |t|
    ensures r == ParseArgs(t, i, [], rs0)
  {
    hide Gettoken, Skip, ParseRedirs;
    var argv, rs: seq<Redirection> := [], rs0;
    ghost var at := i;
    var s := SkipSpace(t, i);
    while !(Ch(t, s) == '|' || Ch(t, s) == ')' || Ch(t, s) == '&' || Ch(t, s) == ';')
      invariant at <= s <= |t| && s == Skip(t, at) && ParseArgs(t, at, argv, rs) == ParseArgs(t, i, [], rs0)
      decreases |t| - at
    {
      var word := GetTok(t, s);
      if word.kind == '\0' { return Ok(Redirected(Exec(argv), rs), word.next); }
      if word.kind != 'a' { return Panic; }
      if |argv| + 1 >= MAXARGS { return Panic; }
      var more := Redirections(t, word.next, rs);
      if more.NoFile? { return Panic; }
      argv, rs := argv + [Tok(word.q, word.eq)], more.rs;
      at := more.end;
      s := SkipSpace(t, more.end);
    }
    r := Ok(Redirected(Exec(argv), rs), s);
  }

  method Command(t: string, i: nat) returns (r: Result)
    requires i <= |t|
    ensures r == ParseExec(t, i)
    decreases |t| - i, 1
  {
    hide Gettoken, Skip, ParseRedirs, ParseArgs, ParseBlock;
    var s := SkipSpace(t, i);
    if Ch(t, s) == '(' {
      r := BlockCommand(t, s);
    } else {
      var rs := Redirections(t, i, []);
      if rs.NoFile? { return Panic; }
      r := Arguments(t, rs.end, rs.rs);
    }
  }

  method BlockCommand(t: string, i: nat) returns (r: Result)
    requires i <= |t|
    ensures r == ParseBlock(t, i)
    decreases |t| - i, 0
  {
    hide Skip, ParseRedirs, ParseLine;
    var s := SkipSpace(t, i);
    if Ch(t, s) != '(' { return Panic; }
    var open := GetTok(t, s);
    var line := Line(t, open.next);
    if line.Panic? { return Panic; }
    var e := SkipSpace(t, line.next);
    if Ch(t, e) != ')' { return Panic; }
    var close := GetTok(t, e);
    var rs := Redirections(t, close.next, []);
    if rs.NoFile? { return Panic; }
    r := Ok(Redirected(line.cmd, rs.rs), rs.end);
  }

  method Pipeline(t: string, i: nat) returns (r: Result)
    requires i <= |t|
    ensures r == ParsePipe(t, i)
    decreases |t| - i, 2
  {
    hide Skip, ParseExec;
    var left := Command(t, i);
    if left.Panic? { return Panic; }
    var s := SkipSpace(t, left.next);
    if Ch(t, s) != '|' { return Ok(left.cmd, s); }
    var bar := GetTok(t, s);
    var right := Pipeline(t, bar.next);
    if right.Panic? { return Panic; }
    r := Ok(Pipe(left.cmd, right.cmd), right.next);
  }

  method Line(t: string, i: nat) returns (r: Result)
    requires i <= |t|
    ensures r == ParseLine(t, i)
    decreases |t| - i, 3
  {
    hide Skip, ParsePipe, Gettoken;
    var first := Pipeline(t, i);
    if first.Panic? { return Panic; }
    var cmd := first.cmd;
    ghost var at := first.next;
    var s := SkipSpace(t, first.next);
    while Ch(t, s) == '&'
      invariant first.next <= at <= s <= |t| && s == Skip(t, at)
                && ParseBacks(t, at, cmd) == ParseBacks(t, first.next, first.cmd)
      decreases |t| - at
    {
      SymbolAhead(t, at, s);
      var amp := GetTok(t, s);
      cmd := Back(cmd);
      at := amp.next;
      s := SkipSpace(t, amp.next);
    }
    if Ch(t, s) != ';' { return Ok(cmd, s); }
    SymbolAhead(t, at, s);
    var semi := GetTok(t, s);
    var right := Line(t, semi.next);
    if right.Panic? { return Panic; }
    r := Ok(List(cmd, right.cmd), right.next);
  }

  /** Taking a symbol takes at least one character. */
  lemma SymbolAhead(t: string, i: nat, s: nat)
    requires i <= s <= |t| && s == Skip(t, i) && IsSymbol(Ch(t, s))
    ensures Gettoken(t, s).next > s
  {
    hide Skip;
  }

  /** parsecmd: the command, with its words NUL-terminated in the buffer that holds
      the text and its closing NUL; a panic leaves the buffer as it was. */
  method Parse(t: string, buf: array<char>) returns (r: Result)
    requires buf[..] == t + "\0"
    modifies buf
    ensures r == ParseCmd(t)
    ensures r.Panic? ==> buf[..] == old(buf[..])
    ensures r.Ok? ==> buf[..] == Cut(old(buf[..]), Toks(r.cmd))
  {
    hide ParseLine, Cut, Skip;
    var line := Line(t, 0);
    if line.Panic? { return Panic; }
    var s := SkipSpace(t, line.next);
    if s != |t| { return Panic; }
    LineRuns(t, 0);
    AllWithin(t, Toks(line.cmd));
    Nulterminate(buf, line.cmd);
    r := line;
  }

  /** Every word ends inside a buffer of n characters. */
  predicate Within(ws: seq<Tok>, n: nat) {
    forall k {:trigger ws[k]} :: 0 <= k < |ws| ==> ws[k].eq < n
  }

  lemma AllWithin(t: string, ws: seq<Tok>)
    requires AllRuns(t, ws)
    ensures Within(ws, |t| + 1)
  {
    forall k | 0 <= k < |ws| ensures ws[k].eq <= |t| {
      assert IsRun(t, ws[k]);
    }
  }

  /** nulterminate, down the tree. */
  method Nulterminate(buf: array<char>, cmd: Cmd)
    requires Within(Toks(cmd), buf.Length)
    modifies buf
    ensures buf[..] == Cut(old(buf[..]), Toks(cmd))
    decreases cmd
  {
    hide Cut;
    match cmd
    case Exec(argv) =>
      assert Toks(cmd) == argv;
      CutNone(buf[..]);
      var i := 0;
      assert argv[..0] == [];
      while i < |argv|
        invariant 0 <= i <= |argv| && buf[..] == Cut(old(buf[..]), argv[..i])
      {
        assert argv[i].eq < buf.Length;
        CutNext(old(buf[..]), argv, i);
        buf[argv[i].eq] := '\0';
        i := i + 1;
      }
      assert argv[..|argv|] == argv;
    case Redir(c, file, _, _) =>
      ToksOf(Toks(c), [file], buf.Length);
      assert [file][0].eq < buf.Length;
      Nulterminate(buf, c);
      CutBoth(old(buf[..]), Toks(c), [file]);
      CutOne(buf[..], file);
      buf[file.eq] := '\0';
    case Pipe(l, r) =>
      ToksOf(Toks(l), Toks(r), buf.Length);
      Nulterminate(buf, l);
      Nulterminate(buf, r);
      CutBoth(old(buf[..]), Toks(l), Toks(r));
    case List(l, r) =>
      ToksOf(Toks(l), Toks(r), buf.Length);
      Nulterminate(buf, l);
      Nulterminate(buf, r);
      CutBoth(old(buf[..]), Toks(l), Toks(r));
    case Back(c) =>
      Nulterminate(buf, c);
  }

  lemma ToksOf(a: seq<Tok>, b: seq<Tok>, n: nat)
    requires Within(a + b, n)
    ensures Within(a, n) && Within(b, n)
  {
    forall k | 0 <= k < |a| ensures a[k].eq < n { assert (a + b)[k] == a[k]; }
    forall k | 0 <= k < |b| ensures b[k].eq < n { assert (a + b)[|a| + k] == b[k]; }
  }

  lemma CutNone(buf: string)
    ensures Cut(buf, []) == buf
  {
  }

  lemma CutOne(buf: string, w: Tok)
    requires w.eq < |buf|
    ensures Cut(buf, [w]) == buf[w.eq := '\0']
  {
    CutNone(buf);
    assert [w][..0] == [];
  }

  lemma CutNext(buf: string, ws: seq<Tok>, i: nat)
    requires i < |ws| && ws[i].eq < |buf|
    ensures Cut(buf, ws[..i + 1]) == Cut(buf, ws[..i])[ws[i].eq := '\0']
  {
    assert ws[..i + 1][..i] == ws[..i];
  }

  lemma {:induction false} CutBoth(buf: string, a: seq<Tok>, b: seq<Tok>)
    ensures Cut(buf, a + b) == Cut(Cut(buf, a), b)
  {
    if b == [] {
      assert a + b == a;
    } else {
      CutBoth(buf, a, b[..|b| - 1]);
      assert (a + b)[..|a + b| - 1] == a + b[..|b| - 1];
    }
  }
}
