/** The grammar that sh.c's parser implements, on its own: lines of pipelines of
    commands, spelled with any white space.  The parser accepts exactly the texts that
    spell a line, and builds the tree of that line. */
module ShellGrammar {
  import opened Shell

  // ---- Texts as lexemes with white space between them ----

  /** A word or a mark, and the white space after it. */
  datatype Lexeme = Lexeme(text: string, gap: string)

  predicate IsBlank(s: string) {
    forall k :: 0 <= k < |s| ==> IsSpace(s[k])
  }

  predicate IsMark(s: string) {
    s == "<" || s == ">" || s == ">>" || s == "|" || s == "&" || s == ";" || s == "(" || s == ")"
  }

  predicate GoodLexeme(x: Lexeme) {
    (IsWordText(x.text) || IsMark(x.text)) && IsBlank(x.gap)
  }

  /** Only between two words, and after ">" before another, is white space needed. */
  predicate Apart(x: Lexeme, y: Lexeme) {
    x.gap == "" ==>
      && !(IsWordText(x.text) && IsWordText(y.text))
      && !(x.text == ">" && (y.text == ">" || y.text == ">>"))
  }

  predicate GoodLexemes(ls: seq<Lexeme>) {
    && (forall k {:trigger ls[k]} :: 0 <= k < |ls| ==> GoodLexeme(ls[k]))
    && (forall k :: 0 <= k < |ls| - 1 ==> Apart(ls[k], ls[k + 1]))
  }

  function Spell(ls: seq<Lexeme>): string {
    if ls == [] then "" else ls[0].text + ls[0].gap + Spell(ls[1..])
  }

  function Texts(ls: seq<Lexeme>): (r: seq<string>)
    ensures |r| == |ls| && forall k :: 0 <= k < |ls| ==> r[k] == ls[k].text
  {
    seq(|ls|, k requires 0 <= k < |ls| => ls[k].text)
  }

  /** From i on, t spells ls. */
  predicate Reads(t: string, i: nat, ls: seq<Lexeme>) {
    i <= |t| && t[i..] == Spell(ls) && GoodLexemes(ls)
  }

  /** Where the lexeme after the one at i starts. */
  function Past(i: nat, x: Lexeme): nat {
    i + |x.text| + |x.gap|
  }

  lemma GoodRest(ls: seq<Lexeme>)
    requires GoodLexemes(ls) && ls != []
    ensures GoodLexemes(ls[1..])
  {
    hide GoodLexeme, Apart;
    forall k | 0 <= k < |ls[1..]| - 1 ensures Apart(ls[1..][k], ls[1..][k + 1]) {
      assert Apart(ls[k + 1], ls[k + 2]);
    }
  }

  lemma SpellStep(ls: seq<Lexeme>)
    requires ls != []
    ensures Spell(ls) == ls[0].text + (ls[0].gap + Spell(ls[1..]))
  {
  }

  lemma SpelledRest(t: string, i: nat, x: Lexeme, rest: string)
    requires i <= |t| && t[i..] == x.text + (x.gap + rest)
    ensures Past(i, x) <= |t| && t[Past(i, x)..] == rest && Has(t, i, x.text) && Has(t, i + |x.text|, x.gap)
  {
    var s := x.text + (x.gap + rest);
    assert t[i..i + |s|] == t[i..];
    HasBoth(t, i, x.text, x.gap + rest);
    HasBoth(t, i + |x.text|, x.gap, rest);
    assert t[Past(i, x)..] == t[Past(i, x)..Past(i, x) + |rest|];
  }

  lemma ReadsRest(t: string, i: nat, ls: seq<Lexeme>)
    requires Reads(t, i, ls) && ls != []
    ensures Past(i, ls[0]) <= |t| && Reads(t, Past(i, ls[0]), ls[1..])
    ensures Has(t, i, ls[0].text) && Has(t, i + |ls[0].text|, ls[0].gap)
  {
    hide GoodLexemes, Spell;
    GoodRest(ls);
    SpellStep(ls);
    SpelledRest(t, i, ls[0], Spell(ls[1..]));
  }

  /** A lexeme starts with a character that is no white space, and a mark with one that
      is in no word. */
  lemma FirstOf(x: Lexeme)
    requires GoodLexeme(x)
    ensures |x.text| > 0 && x.text[0] != '\0' && !IsSpace(x.text[0])
    ensures IsWordText(x.text) <==> !IsMark(x.text)
    ensures IsWordText(x.text) <==> IsWord(x.text[0])
  {
  }

  lemma ReadsAt(t: string, i: nat, ls: seq<Lexeme>)
    requires Reads(t, i, ls)
    ensures ls == [] ==> i == |t|
    ensures ls != [] ==> |ls[0].text| > 0 && i < |t| && Ch(t, i) == ls[0].text[0]
    ensures Skip(t, i) == i
  {
    hide GoodLexeme, Has;
    if ls != [] {
      assert GoodLexeme(ls[0]);
      FirstOf(ls[0]);
      ReadsRest(t, i, ls);
      HasAt(t, i, ls[0].text, 0);
    }
    Still(t, i);
  }

  lemma {:induction false} SkipBlank(t: string, i: nat, gap: string, k: nat)
    requires Has(t, i, gap) && IsBlank(gap) && k <= |gap| && !IsSpace(Ch(t, i + |gap|))
    ensures Skip(t, i + k) == i + |gap|
    decreases |gap| - k
  {
    hide Has;
    HasBound(t, i, gap);
    if k < |gap| {
      HasAt(t, i, gap, k);
      SkipOne(t, i + k);
      SkipBlank(t, i, gap, k + 1);
    } else {
      Still(t, i + k);
    }
  }

  lemma HasBound(t: string, i: nat, s: string)
    requires Has(t, i, s)
    ensures i + |s| <= |t|
  {
  }

  /** The character gettoken stands for a lexeme with. */
  function Kind(text: string): char {
    if text == ">>" then '+' else if IsMark(text) then text[0] else 'a'
  }

  /** After a lexeme comes white space, the next lexeme, or the end. */
  lemma AfterText(t: string, i: nat, ls: seq<Lexeme>)
    requires Reads(t, i, ls) && ls != []
    ensures var c, x := Ch(t, i + |ls[0].text|), ls[0];
            && (IsWordText(x.text) ==> !IsWord(c)) && (x.text == ">" ==> c != '>')
  {
    hide Has, IsSpace, IsWord, IsWordText, IsMark;
    var x := ls[0];
    assert GoodLexeme(x);
    ReadsRest(t, i, ls);
    if x.gap != "" {
      HasAt(t, i + |x.text|, x.gap, 0);
      BlankChar(x.gap[0]);
    } else {
      ReadsAt(t, Past(i, x), ls[1..]);
      if |ls| > 1 {
        assert GoodLexeme(ls[1]);
        FirstOf(ls[1]);
        assert Apart(ls[0], ls[1]);
        ArrowFirst(ls[1].text);
      } else {
        EndChar(t, i + |x.text|);
      }
    }
  }

  lemma BlankChar(c: char)
    requires IsSpace(c)
    ensures !IsWord(c) && c != '>'
  {
  }

  lemma ArrowFirst(s: string)
    requires IsWordText(s) || IsMark(s)
    ensures |s| > 0 && (s[0] == '>' ==> s == ">" || s == ">>")
  {
  }

  lemma EndChar(t: string, i: nat)
    requires i == |t|
    ensures !IsWord(Ch(t, i)) && Ch(t, i) != '>'
  {
  }

  /** gettoken reads one lexeme and the white space after it. */
  lemma TokenAt(t: string, i: nat, ls: seq<Lexeme>)
    requires Reads(t, i, ls) && ls != []
    ensures var x := ls[0];
            && Past(i, x) <= |t| && Reads(t, Past(i, x), ls[1..])
            && Gettoken(t, i) == Token(Kind(x.text), i, i + |x.text|, Past(i, x))
            && TextOf(t, Tok(i, i + |x.text|)) == x.text
  {
    hide Has, Skip, WordEnd, GoodLexemes, Gettoken;
    var x := ls[0];
    GoodFirst(ls);
    ReadsRest(t, i, ls);
    ReadsAt(t, i, ls);
    ReadsAt(t, Past(i, x), ls[1..]);
    Still2(t, Past(i, x));
    SkipBlank(t, i + |x.text|, x.gap, 0);
    AfterText(t, i, ls);
    FirstOf(x);
    HasText(t, i, x.text);
    if IsWordText(x.text) {
      WordToken(t, i, x.text);
    } else {
      if |x.text| == 2 { HasAt(t, i, x.text, 1); }
      MarkToken(t, i, x.text);
    }
  }

  lemma GoodFirst(ls: seq<Lexeme>)
    requires GoodLexemes(ls) && ls != []
    ensures GoodLexeme(ls[0])
  {
  }

  lemma Still2(t: string, i: nat)
    requires i <= |t| && Skip(t, i) == i
    ensures !IsSpace(Ch(t, i))
  {
  }

  lemma HasText(t: string, i: nat, s: string)
    requires Has(t, i, s)
    ensures TextOf(t, Tok(i, i + |s|)) == s
  {
  }

  lemma MarkToken(t: string, i: nat, s: string)
    requires i + |s| <= |t| && IsMark(s) && Skip(t, i) == i && Ch(t, i) == s[0]
    requires if s == ">>" then Ch(t, i + 1) == '>' else s == ">" ==> Ch(t, i + 1) != '>'
    ensures Gettoken(t, i) == Token(Kind(s), i, i + |s|, Skip(t, i + |s|))
  {
    hide Skip, WordEnd;
  }

  // ---- The grammar ----

  /** What a command is made of, in the order it is written. */
  datatype Item = Word(text: string) | From(file: string) | To(file: string) | AppendTo(file: string)

  datatype CommandText = Plain(items: seq<Item>) | Paren(line: LineText, redirs: seq<Item>)

  datatype PipeText = Single(cmd: CommandText) | Piped(cmd: CommandText, rest: PipeText)

  /** A pipeline with a number of "&" behind it, alone or before ";" and a line. */
  datatype LineText = Last(pipe: PipeText, backs: nat) | Then(pipe: PipeText, backs: nat, rest: LineText)

  predicate GoodItem(x: Item) {
    if x.Word? then IsWordText(x.text) else IsWordText(x.file)
  }

  predicate GoodItems(xs: seq<Item>) {
    forall k {:trigger xs[k]} :: 0 <= k < |xs| ==> GoodItem(xs[k])
  }

  function WordsIn(xs: seq<Item>): seq<string> {
    if xs == [] then [] else (if xs[0].Word? then [xs[0].text] else []) + WordsIn(xs[1..])
  }

  /** At most nine words to a command, and only redirections behind a block. */
  predicate GoodCommand(c: CommandText) {
    match c
    case Plain(items) => GoodItems(items) && |WordsIn(items)| <= 9
    case Paren(line, redirs) => GoodLine(line) && GoodItems(redirs) && WordsIn(redirs) == []
  }

  predicate GoodPipe(p: PipeText) {
    GoodCommand(p.cmd) && (p.Piped? ==> GoodPipe(p.rest))
  }

  predicate GoodLine(l: LineText) {
    GoodPipe(l.pipe) && (l.Then? ==> GoodLine(l.rest))
  }

  function ItemTexts(x: Item): seq<string> {
    match x
    case Word(w) => [w]
    case From(file) => ["<", file]
    case To(file) => [">", file]
    case AppendTo(file) => [">>", file]
  }

  function ItemsTexts(xs: seq<Item>): seq<string> {
    if xs == [] then [] else ItemTexts(xs[0]) + ItemsTexts(xs[1..])
  }

  function CommandTexts(c: CommandText): seq<string> {
    match c
    case Plain(items) => ItemsTexts(items)
    case Paren(line, redirs) => ["("] + (LineTexts(line) + ([")"] + ItemsTexts(redirs)))
  }

  function PipeTexts(p: PipeText): seq<string> {
    match p
    case Single(cmd) => CommandTexts(cmd)
    case Piped(cmd, rest) => CommandTexts(cmd) + (["|"] + PipeTexts(rest))
  }

  function Ampersands(n: nat): seq<string> {
    if n == 0 then [] else ["&"] + Ampersands(n - 1)
  }

  function LineTexts(l: LineText): seq<string> {
    match l
    case Last(pipe, backs) => PipeTexts(pipe) + Ampersands(backs)
    case Then(pipe, backs, rest) => PipeTexts(pipe) + (Ampersands(backs) + ([";"] + LineTexts(rest)))
  }

  // ---- What a line means ----

  /** One redirection around a command: "<" opens the file to read as descriptor 0, the
      others open or create it to write as descriptor 1. */
  function Around(c: Tree, x: Item): Tree
    requires !x.Word?
  {
    if x.From? then TRedir(c, x.file, 0x000, 0) else TRedir(c, x.file, 0x001 + 0x200, 1)
  }

  /** Redirections around a command, the first innermost. */
  function Wrapped(c: Tree, xs: seq<Item>): Tree
    decreases |xs|
  {
    if xs == [] then c else Wrapped(if xs[0].Word? then c else Around(c, xs[0]), xs[1..])
  }

  function CommandTree(c: CommandText): Tree {
    match c
    case Plain(items) => Wrapped(TExec(WordsIn(items)), items)
    case Paren(line, redirs) => Wrapped(LineTree(line), redirs)
  }

  function PipeTree(p: PipeText): Tree {
    match p
    case Single(cmd) => CommandTree(cmd)
    case Piped(cmd, rest) => TPipe(CommandTree(cmd), PipeTree(rest))
  }

  function Backs(c: Tree, n: nat): Tree {
    if n == 0 then c else TBack(Backs(c, n - 1))
  }

  function LineTree(l: LineText): Tree {
    match l
    case Last(pipe, backs) => Backs(PipeTree(pipe), backs)
    case Then(pipe, backs, rest) => TList(Backs(PipeTree(pipe), backs), LineTree(rest))
  }

  // ---- The parser reads a line ----

  lemma NoWords()
    ensures WordsIn([]) == []
  {
  }

  lemma WordsStep(xs: seq<Item>)
    requires xs != []
    ensures WordsIn(xs) == (if xs[0].Word? then [xs[0].text] else []) + WordsIn(xs[1..])
  {
  }

  lemma {:induction false} WordsMore(xs: seq<Item>, x: Item)
    ensures WordsIn(xs + [x]) == WordsIn(xs) + if x.Word? then [x.text] else []
  {
    hide WordsIn;
    NoWords();
    if xs == [] {
      assert [] + [x] == [x] && [x][1..] == [];
      WordsStep([x]);
    } else {
      assert (xs + [x])[1..] == xs[1..] + [x];
      WordsStep(xs);
      WordsStep(xs + [x]);
      WordsMore(xs[1..], x);
    }
  }

  lemma {:induction false} WrappedMore(c: Tree, xs: seq<Item>, x: Item)
    ensures Wrapped(c, xs + [x]) == if x.Word? then Wrapped(c, xs) else Around(Wrapped(c, xs), x)
    decreases |xs|
  {
    if xs == [] {
      assert [] + [x] == [x] && [x][1..] == [];
    } else {
      assert (xs + [x])[1..] == xs[1..] + [x];
      WrappedMore(if xs[0].Word? then c else Around(c, xs[0]), xs[1..], x);
    }
  }

  /** The redirection is the one that was written. */
  predicate SameRedir(t: string, r: Redirection, x: Item) {
    !x.Word? && Around(TExec([]), x) == TRedir(TExec([]), TextOf(t, r.file), r.mode, r.fd)
  }

  /** rs are the redirections among done. */
  predicate Matches(t: string, rs: seq<Redirection>, done: seq<Item>)
    decreases |done|
  {
    if done == [] then rs == []
    else
      var m := |done| - 1;
      if done[m].Word? then Matches(t, rs, done[..m])
      else rs != [] && SameRedir(t, rs[|rs| - 1], done[m]) && Matches(t, rs[..|rs| - 1], done[..m])
  }

  lemma {:induction false} MatchesMeans(t: string, cmd: Cmd, rs: seq<Redirection>, done: seq<Item>)
    requires Matches(t, rs, done)
    ensures Meaning(t, Redirected(cmd, rs)) == Wrapped(Meaning(t, cmd), done)
    decreases |done|
  {
    if done != [] {
      var m := |done| - 1;
      assert done == done[..m] + [done[m]];
      WrappedMore(Meaning(t, cmd), done[..m], done[m]);
      MatchesMeans(t, cmd, if done[m].Word? then rs else rs[..|rs| - 1], done[..m]);
    }
  }

  lemma MatchesWord(t: string, rs: seq<Redirection>, done: seq<Item>, x: Item)
    requires Matches(t, rs, done) && x.Word?
    ensures Matches(t, rs, done + [x])
  {
    hide SameRedir;
    assert (done + [x])[..|done|] == done;
  }

  lemma MatchesRedir(t: string, rs: seq<Redirection>, done: seq<Item>, x: Item, r: Redirection)
    requires Matches(t, rs, done) && SameRedir(t, r, x) && !x.Word?
    ensures Matches(t, rs + [r], done + [x])
  {
    hide SameRedir;
    assert (done + [x])[..|done|] == done;
    assert (rs + [r])[..|rs|] == rs;
  }

  /** The lexemes of the first of two parts. */
  lemma SplitTexts(a: seq<Lexeme>, u: seq<string>, v: seq<string>)
    requires Texts(a) == u + v
    ensures |u| <= |a| && Texts(a[..|u|]) == u && Texts(a[|u|..]) == v && a == a[..|u|] + a[|u|..]
  {
    assert Texts(a[..|u|]) == Texts(a)[..|u|] == u;
    assert Texts(a[|u|..]) == Texts(a)[|u|..] == v;
  }

  lemma ItemsStep(xs: seq<Item>)
    requires xs != []
    ensures ItemsTexts(xs) == ItemTexts(xs[0]) + ItemsTexts(xs[1..])
  {
  }

  /** The lexemes of the first item, and those after it. */
  lemma ItemFirst(a: seq<Lexeme>, xs: seq<Item>)
    requires Texts(a) == ItemsTexts(xs) && xs != []
    ensures var n := if xs[0].Word? then 1 else 2;
            && n <= |a| && Texts(a[n..]) == ItemsTexts(xs[1..])
            && forall k :: 0 <= k < n ==> a[k].text == ItemTexts(xs[0])[k]
  {
    hide ItemsTexts, Texts;
    var u := ItemTexts(xs[0]);
    ItemsStep(xs);
    SplitTexts(a, u, ItemsTexts(xs[1..]));
    forall k | 0 <= k < |u| ensures a[k].text == u[k] {
      assert Texts(a[..|u|])[k] == a[..|u|][k].text;
    }
  }

  lemma NoItems(a: seq<Lexeme>)
    requires Texts(a) == ItemsTexts([])
    ensures a == []
  {
  }

  /** No more redirections here. */
  predicate NoArrow(ls: seq<Lexeme>) {
    ls != [] ==> ls[0].text != "<" && ls[0].text != ">" && ls[0].text != ">>"
  }

  lemma ArrowChar(ls: seq<Lexeme>)
    requires GoodLexemes(ls) && ls != []
    ensures |ls[0].text| > 0 && (NoArrow(ls) <==> ls[0].text[0] != '<' && ls[0].text[0] != '>')
  {
    assert GoodLexeme(ls[0]);
    FirstOf(ls[0]);
  }

  lemma NoRedirsRead(t: string, i: nat, ls: seq<Lexeme>, rs: seq<Redirection>)
    requires Reads(t, i, ls) && NoArrow(ls)
    ensures ParseRedirs(t, i, rs) == Redirs(rs, i)
  {
    hide Spell, NoArrow, GoodLexemes;
    ReadsAt(t, i, ls);
    if ls != [] { ArrowChar(ls); }
    NoRedirs(t, i, rs);
  }

  /** One redirection read. */
  lemma RedirRead(t: string, i: nat, ls: seq<Lexeme>, x: Item, rs: seq<Redirection>) returns (r: Redirection, j: nat)
    requires Reads(t, i, ls) && !x.Word? && GoodItem(x) && |ls| >= 2
    requires ls[0].text == ItemTexts(x)[0] && ls[1].text == x.file
    ensures SameRedir(t, r, x) && j <= |t| && Reads(t, j, ls[2..])
    ensures ParseRedirs(t, i, rs) == ParseRedirs(t, j, rs + [r])
  {
    hide Reads, Skip, Gettoken, ParseRedirs, SameRedir, ItemTexts, Kind, TextOf, IsWordText, RedirTo;
    ReadsAt(t, i, ls);
    TokenAt(t, i, ls);
    var k := Past(i, ls[0]);
    assert ls[1..][0] == ls[1] && ls[1..][1..] == ls[2..];
    TokenAt(t, k, ls[1..]);
    j := Past(k, ls[1]);
    WordKind(x.file);
    ArrowItem(x);
    RedirStep(t, i, rs);
    r := RedirTo(Tok(k, k + |x.file|), if x.From? then 0 else 1);
    RedirIs(t, Tok(k, k + |x.file|), x);
  }

  lemma ArrowItem(x: Item)
    requires !x.Word?
    ensures var s := ItemTexts(x)[0];
            |s| > 0 && (s[0] == '<' || s[0] == '>') && (Kind(s) == '<' <==> x.From?)
  {
  }

  lemma RedirIs(t: string, w: Tok, x: Item)
    requires !x.Word? && TextOf(t, w) == x.file
    ensures SameRedir(t, RedirTo(w, if x.From? then 0 else 1), x)
  {
  }

  lemma WordKind(s: string)
    requires IsWordText(s)
    ensures Kind(s) == 'a'
  {
    assert IsWord(s[0]);
  }

  lemma {:induction false} RedirsRead(t: string, i: nat, a: seq<Lexeme>, b: seq<Lexeme>, xs: seq<Item>,
                                      rs: seq<Redirection>, done: seq<Item>)
    returns (m: nat, a': seq<Lexeme>, rs': seq<Redirection>, j: nat)
    requires Reads(t, i, a + b) && Texts(a) == ItemsTexts(xs) && GoodItems(xs) && NoArrow(b) && Matches(t, rs, done)
    ensures ParseRedirs(t, i, rs) == Redirs(rs', j) && Reads(t, j, a' + b)
    ensures m <= |xs| && Texts(a') == ItemsTexts(xs[m..]) && Matches(t, rs', done + xs[..m])
    ensures (xs[m..] == [] || xs[m].Word?) && WordsIn(done + xs[..m]) == WordsIn(done)
    decreases |xs|
  {
    hide Reads, Matches, ParseRedirs, SameRedir, GoodItem, WordsIn, ItemsTexts, Texts, NoArrow;
    if xs == [] || xs[0].Word? {
      m, a', rs', j := 0, a, rs, i;
      assert done + xs[..0] == done && xs[0..] == xs;
      if xs == [] {
        NoItems(a);
        assert a + b == b;
      } else {
        ItemFirst(a, xs);
        assert GoodItem(xs[0]);
        WordNoArrow(a + b, xs[0]);
      }
      NoRedirsRead(t, i, a + b, rs);
    } else {
      ItemFirst(a, xs);
      var x := xs[0];
      assert GoodItem(x);
      assert (a + b)[2..] == a[2..] + b;
      var r, k := RedirRead(t, i, a + b, x, rs);
      MatchesRedir(t, rs, done, x, r);
      WordsMore(done, x);
      m, a', rs', j := RedirsRead(t, k, a[2..], b, xs[1..], rs + [r], done + [x]);
      m := m + 1;
      assert done + [x] + xs[1..][..m - 1] == done + xs[..m];
      assert xs[1..][m - 1..] == xs[m..];
    }
  }

  lemma WordNoArrow(ls: seq<Lexeme>, x: Item)
    requires ls != [] && x.Word? && GoodItem(x) && ls[0].text == x.text
    ensures NoArrow(ls)
  {
    assert IsWord(x.text[0]);
  }

  /** What may follow a command. */
  predicate Stop(ls: seq<Lexeme>) {
    ls == [] || ls[0].text == "|" || ls[0].text == ")" || ls[0].text == "&" || ls[0].text == ";"
  }

  lemma ArgsStop(t: string, i: nat, ls: seq<Lexeme>, argv: seq<Tok>, rs: seq<Redirection>)
    requires Reads(t, i, ls) && Stop(ls)
    ensures ParseArgs(t, i, argv, rs) == Ok(Redirected(Exec(argv), rs), i)
  {
    hide Spell, GoodLexemes, Redirected;
    ReadsAt(t, i, ls);
    if ls == [] { EndToken(t, i); }
  }

  lemma ArgsOnWord(t: string, i: nat, argv: seq<Tok>, rs: seq<Redirection>)
    requires i <= |t| && Skip(t, i) == i && !IsSymbol(Ch(t, i)) && Gettoken(t, i).kind == 'a' && |argv| + 1 < MAXARGS
    ensures var word := Gettoken(t, i);
            ParseArgs(t, i, argv, rs) == match ParseRedirs(t, word.next, rs)
                                         case NoFile => Panic
                                         case Redirs(rs', j) => ParseArgs(t, j, argv + [Tok(word.q, word.eq)], rs')
  {
    hide ParseRedirs, Gettoken, Skip, Redirected;
  }

  /** One turn of parseexec's loop. */
  lemma ArgsTurn(t: string, i: nat, ls: seq<Lexeme>, argv: seq<Tok>, rs: seq<Redirection>)
    requires Reads(t, i, ls) && ls != [] && IsWordText(ls[0].text) && |argv| + 1 < MAXARGS
    ensures Past(i, ls[0]) <= |t|
    ensures ParseArgs(t, i, argv, rs) == match ParseRedirs(t, Past(i, ls[0]), rs)
                                         case NoFile => Panic
                                         case Redirs(rs', j) =>
                                           ParseArgs(t, j, argv + [Tok(i, i + |ls[0].text|)], rs')
  {
    hide Reads, ParseArgs, ParseRedirs, Gettoken, Skip, Kind;
    ReadsAt(t, i, ls);
    TokenAt(t, i, ls);
    WordKind(ls[0].text);
    WordFirst(ls[0].text);
    ArgsOnWord(t, i, argv, rs);
  }

  lemma WordFirst(s: string)
    requires IsWordText(s)
    ensures !IsSymbol(s[0]) && s[0] != '\0'
  {
  }

  lemma {:induction false} ArgsRead(t: string, i: nat, a: seq<Lexeme>, b: seq<Lexeme>, xs: seq<Item>, argv: seq<Tok>,
                                    rs: seq<Redirection>, done: seq<Item>)
    returns (j: nat)
    requires Reads(t, i, a + b) && Texts(a) == ItemsTexts(xs) && GoodItems(xs) && Stop(b) && Matches(t, rs, done)
    requires TextsOf(t, argv) == WordsIn(done) && (xs == [] || xs[0].Word?) && |WordsIn(done + xs)| <= 9
    ensures var r := ParseArgs(t, i, argv, rs);
            r.Ok? && r.next == j && Meaning(t, r.cmd) == Wrapped(TExec(WordsIn(done + xs)), done + xs)
    ensures Reads(t, j, b)
    decreases |xs|
  {
    hide Reads, Matches, ParseRedirs, ParseArgs, GoodItem, Wrapped, Redirected, IsWordText, TextsOf, ItemsTexts,
         WordsIn, Texts, Stop;
    if xs == [] {
      j := i;
      assert done + xs == done;
      NoItems(a);
      assert a + b == b;
      ArgsStop(t, i, b, argv, rs);
      MatchesMeans(t, Exec(argv), rs, done);
    } else {
      ItemFirst(a, xs);
      var x := xs[0];
      assert GoodItem(x);
      assert (a + b)[1..] == a[1..] + b;
      WordItem(x);
      WordsMore(done, x);
      WordsPrefix(done + [x], xs[1..]);
      assert done + [x] + xs[1..] == done + xs;
      ArgsTurn(t, i, a + b, argv, rs);
      TokenAt(t, i, a + b);
      var w := Tok(i, i + |x.text|);
      TextsMore(t, argv, w);
      MatchesWord(t, rs, done, x);
      StopNoArrow(b);
      var m, a', rs', k := RedirsRead(t, Past(i, a[0]), a[1..], b, xs[1..], rs, done + [x]);
      var done' := done + [x] + xs[1..][..m];
      assert done' + xs[1..][m..] == done + xs;
      j := ArgsRead(t, k, a', b, xs[1..][m..], argv + [w], rs', done');
    }
  }

  lemma WordItem(x: Item)
    requires GoodItem(x) && x.Word?
    ensures IsWordText(x.text)
  {
  }

  lemma StopNoArrow(ls: seq<Lexeme>)
    requires Stop(ls)
    ensures NoArrow(ls)
  {
  }

  lemma {:induction false} WordsPrefix(xs: seq<Item>, ys: seq<Item>)
    ensures |WordsIn(xs)| <= |WordsIn(xs + ys)|
    decreases |ys|
  {
    if ys == [] {
      assert xs + ys == xs;
    } else {
      WordsMore(xs, ys[0]);
      WordsPrefix(xs + [ys[0]], ys[1..]);
      assert xs + [ys[0]] + ys[1..] == xs + ys;
    }
  }

  lemma PlainRead(t: string, i: nat, a: seq<Lexeme>, b: seq<Lexeme>, c: CommandText) returns (j: nat)
    requires Reads(t, i, a + b) && c.Plain? && Texts(a) == CommandTexts(c) && GoodCommand(c) && Stop(b)
    ensures ParseExec(t, i).Ok? && ParseExec(t, i).next == j && Meaning(t, ParseExec(t, i).cmd) == CommandTree(c)
    ensures Reads(t, j, b)
  {
    hide Reads, Matches, ParseRedirs, ParseArgs, GoodItem, Wrapped, Stop, NoArrow, Skip, Texts, ItemsTexts;
    StopNoArrow(b);
    ReadsAt(t, i, a + b);
    NotParen(t, i, a, b, c.items);
    assert Matches(t, [], []) by { NoneMatch(t); }
    var m, a', rs, k := RedirsRead(t, i, a, b, c.items, [], []);
    assert [] + c.items[..m] + c.items[m..] == c.items && [] + c.items[..m] == c.items[..m];
    j := ArgsRead(t, k, a', b, c.items[m..], [], rs, c.items[..m]);
  }

  lemma NoneMatch(t: string)
    ensures Matches(t, [], [])
  {
  }

  lemma NotParen(t: string, i: nat, a: seq<Lexeme>, b: seq<Lexeme>, xs: seq<Item>)
    requires Reads(t, i, a + b) && Texts(a) == ItemsTexts(xs) && GoodItems(xs) && Stop(b)
    ensures Ch(t, i) != '('
  {
    hide Reads, GoodLexemes, Texts;
    ReadsAt(t, i, a + b);
    if xs == [] {
      NoItems(a);
      assert a + b == b;
    } else {
      ItemFirst(a, xs);
      assert GoodItem(xs[0]);
      if xs[0].Word? { WordFirst(xs[0].text); }
    }
  }

  /** A mark in front of what is left. */
  lemma MarkRead(t: string, i: nat, ls: seq<Lexeme>, mark: string)
    requires Reads(t, i, ls) && ls != [] && ls[0].text == mark && IsMark(mark) && |mark| == 1
    ensures Skip(t, i) == i && Ch(t, i) == mark[0] && Gettoken(t, i).next == Past(i, ls[0])
    ensures Past(i, ls[0]) <= |t| && Reads(t, Past(i, ls[0]), ls[1..])
  {
    hide Reads, Gettoken;
    ReadsAt(t, i, ls);
    TokenAt(t, i, ls);
  }

  lemma HeadText(a: seq<Lexeme>, w: string, v: seq<string>)
    requires Texts(a) == [w] + v
    ensures a != [] && a[0].text == w && Texts(a[1..]) == v
  {
    SplitTexts(a, [w], v);
    assert Texts(a[..1])[0] == w;
  }

  lemma {:induction false} CommandRead(t: string, i: nat, a: seq<Lexeme>, b: seq<Lexeme>, c: CommandText)
    returns (j: nat)
    requires Reads(t, i, a + b) && Texts(a) == CommandTexts(c) && GoodCommand(c) && Stop(b)
    ensures ParseExec(t, i).Ok? && ParseExec(t, i).next == j && Meaning(t, ParseExec(t, i).cmd) == CommandTree(c)
    ensures Reads(t, j, b)
    decreases c, 1
  {
    hide Reads, Matches, ParseRedirs, ParseLine, ParseExec, GoodItems, Wrapped, Stop, Skip, Texts, ItemsTexts,
         Redirected, Meaning, GoodLine, LineTexts, LineTree;
    if c.Plain? {
      j := PlainRead(t, i, a, b, c);
    } else {
      var close := [")"] + ItemsTexts(c.redirs);
      HeadText(a, "(", LineTexts(c.line) + close);
      MarkRead(t, i, a + b, "(");
      var i1, a1 := Past(i, a[0]), a[1..];
      assert (a + b)[1..] == a1 + b;
      SplitTexts(a1, LineTexts(c.line), close);
      var n := |LineTexts(c.line)|;
      var a2 := a1[n..];
      HeadText(a2, ")", ItemsTexts(c.redirs));
      assert a1 + b == a1[..n] + (a2 + b);
      var e := LineRead(t, i1, a1[..n], a2 + b, c.line);
      MarkRead(t, e, a2 + b, ")");
      assert (a2 + b)[1..] == a2[1..] + b;
      NoneMatch(t);
      StopNoArrow(b);
      var m, a3, rs, k := RedirsRead(t, Past(e, a2[0]), a2[1..], b, c.redirs, [], []);
      OnlyRedirs(c.redirs, m);
      assert [] + c.redirs[..m] == c.redirs && c.redirs[m..] == [];
      NoItems(a3);
      assert a3 + b == b;
      j := k;
      BlockOf(t, i, i1, e, Past(e, a2[0]), rs, k);
      MatchesMeans(t, ParseLine(t, i1).cmd, rs, c.redirs);
    }
  }

  /** Where no words are left there are no items left. */
  lemma OnlyRedirs(xs: seq<Item>, m: nat)
    requires WordsIn(xs) == [] && m <= |xs| && (xs[m..] == [] || xs[m].Word?)
    ensures m == |xs|
  {
    if m < |xs| { WordCounted(xs, m); }
  }

  lemma {:induction false} WordCounted(xs: seq<Item>, m: nat)
    requires m < |xs| && xs[m].Word?
    ensures WordsIn(xs) != []
  {
    if m > 0 { WordCounted(xs[1..], m - 1); }
  }

  /** parseblock from its parts. */
  lemma BlockOf(t: string, i: nat, i1: nat, e: nat, e1: nat, rs: seq<Redirection>, k: nat)
    requires i < |t| && Skip(t, i) == i && Ch(t, i) == '(' && Gettoken(t, i).next == i1
    requires ParseLine(t, i1).Ok? && ParseLine(t, i1).next == e && Skip(t, e) == e && Ch(t, e) == ')'
    requires Gettoken(t, e).next == e1 && ParseRedirs(t, e1, []) == Redirs(rs, k)
    ensures ParseExec(t, i) == Ok(Redirected(ParseLine(t, i1).cmd, rs), k)
  {
    hide ParseLine, ParseRedirs, Gettoken, Skip, Redirected;
  }

  lemma {:induction false} PipeRead(t: string, i: nat, a: seq<Lexeme>, b: seq<Lexeme>, p: PipeText) returns (j: nat)
    requires Reads(t, i, a + b) && Texts(a) == PipeTexts(p) && GoodPipe(p) && Stop(b)
             && (b != [] ==> b[0].text != "|")
    ensures ParsePipe(t, i).Ok? && ParsePipe(t, i).next == j && Meaning(t, ParsePipe(t, i).cmd) == PipeTree(p)
    ensures Reads(t, j, b)
    decreases p, 2
  {
    hide Reads, ParseExec, Skip, Texts, GoodCommand, CommandTexts, CommandTree, Gettoken;
    if p.Single? {
      j := CommandRead(t, i, a, b, p.cmd);
      NoPipeChar(t, j, b);
    } else {
      SplitTexts(a, CommandTexts(p.cmd), ["|"] + PipeTexts(p.rest));
      var n := |CommandTexts(p.cmd)|;
      var a1 := a[n..];
      HeadText(a1, "|", PipeTexts(p.rest));
      assert a + b == a[..n] + (a1 + b);
      var e := CommandRead(t, i, a[..n], a1 + b, p.cmd);
      MarkRead(t, e, a1 + b, "|");
      assert (a1 + b)[1..] == a1[1..] + b;
      j := PipeRead(t, Past(e, a1[0]), a1[1..], b, p.rest);
    }
  }

  lemma NoPipeChar(t: string, i: nat, b: seq<Lexeme>)
    requires Reads(t, i, b) && Stop(b) && (b != [] ==> b[0].text != "|")
    ensures i <= |t| && Skip(t, i) == i && Ch(t, i) != '|'
  {
    hide Skip, Spell, GoodLexemes;
    ReadsAt(t, i, b);
  }

  lemma {:induction false} BacksRead(t: string, i: nat, a: seq<Lexeme>, b: seq<Lexeme>, n: nat, cmd: Cmd, c: Tree,
                                     m: nat)
    returns (j: nat)
    requires Reads(t, i, a + b) && Texts(a) == Ampersands(n) && Meaning(t, cmd) == Backs(c, m)
    requires b == [] || b[0].text == ";" || b[0].text == ")"
    ensures ParseBacks(t, i, cmd).1 == j && Meaning(t, ParseBacks(t, i, cmd).0) == Backs(c, m + n) && Reads(t, j, b)
    decreases n
  {
    hide Reads, Skip, Gettoken, Texts;
    if n == 0 {
      NoTexts(a);
      assert a + b == b;
      j := i;
      ReadsAt(t, i, b);
    } else {
      HeadText(a, "&", Ampersands(n - 1));
      MarkRead(t, i, a + b, "&");
      assert (a + b)[1..] == a[1..] + b;
      j := BacksRead(t, Past(i, a[0]), a[1..], b, n - 1, Back(cmd), c, m + 1);
    }
  }

  lemma NoTexts(a: seq<Lexeme>)
    requires Texts(a) == []
    ensures a == []
  {
  }

  /** parseline from its parts. */
  lemma LineOf(t: string, i: nat)
    requires i <= |t| && ParsePipe(t, i).Ok?
    ensures var (cmd, f) := ParseBacks(t, ParsePipe(t, i).next, ParsePipe(t, i).cmd);
            && (Ch(t, f) != ';' ==> ParseLine(t, i) == Ok(cmd, f))
            && (Ch(t, f) == ';' ==>
                  ParseLine(t, i) == match ParseLine(t, Gettoken(t, f).next)
                                     case Panic => Panic
                                     case Ok(right, k) => Ok(List(cmd, right), k))
  {
    hide ParsePipe, ParseBacks, Gettoken;
  }

  /** The pipeline that a line starts with. */
  lemma {:induction false} LineHead(t: string, i: nat, a: seq<Lexeme>, b: seq<Lexeme>, l: LineText)
    returns (e: nat, a1: seq<Lexeme>)
    requires Reads(t, i, a + b) && Texts(a) == LineTexts(l) && GoodLine(l) && (b == [] || b[0].text == ")")
    ensures ParsePipe(t, i).Ok? && ParsePipe(t, i).next == e && Meaning(t, ParsePipe(t, i).cmd) == PipeTree(l.pipe)
    ensures Reads(t, e, a1 + b)
    ensures Texts(a1) == if l.Last? then Ampersands(l.backs) else Ampersands(l.backs) + ([";"] + LineTexts(l.rest))
    decreases l, 3
  {
    hide Reads, ParsePipe, Texts, GoodPipe, PipeTexts, PipeTree, Ampersands, Stop, LineTexts, LineTree, GoodLine, Backs,
         Meaning;
    LineParts(l);
    var after := if l.Last? then Ampersands(l.backs) else Ampersands(l.backs) + ([";"] + LineTexts(l.rest));
    SplitTexts(a, PipeTexts(l.pipe), after);
    var n := |PipeTexts(l.pipe)|;
    a1 := a[n..];
    assert a + b == a[..n] + (a1 + b);
    AfterPipe(a1, b, l);
    e := PipeRead(t, i, a[..n], a1 + b, l.pipe);
  }

  /** The "&" of a line and the ";" behind them. */
  lemma LineSeparator(t: string, e: nat, a1: seq<Lexeme>, b: seq<Lexeme>, n: nat, rest: seq<string>, cmd: Cmd, c: Tree)
    returns (f: nat, a2: seq<Lexeme>)
    requires Reads(t, e, a1 + b) && Texts(a1) == Ampersands(n) + ([";"] + rest) && Meaning(t, cmd) == c
    ensures ParseBacks(t, e, cmd).1 == f && Meaning(t, ParseBacks(t, e, cmd).0) == Backs(c, n)
    ensures f <= |t| && Ch(t, f) == ';' && Reads(t, Gettoken(t, f).next, a2 + b) && Texts(a2) == rest
  {
    hide Reads, ParseBacks, Texts, Gettoken, Ampersands, Backs, Meaning;
    SplitTexts(a1, Ampersands(n), [";"] + rest);
    var m := |Ampersands(n)|;
    var a' := a1[m..];
    HeadText(a', ";", rest);
    assert a1 + b == a1[..m] + (a' + b);
    NoBacks(c);
    f := BacksRead(t, e, a1[..m], a' + b, n, cmd, c, 0);
    MarkRead(t, f, a' + b, ";");
    a2 := a'[1..];
    assert (a' + b)[1..] == a2 + b;
  }

  lemma {:induction false} LineRead(t: string, i: nat, a: seq<Lexeme>, b: seq<Lexeme>, l: LineText) returns (j: nat)
    requires Reads(t, i, a + b) && Texts(a) == LineTexts(l) && GoodLine(l) && (b == [] || b[0].text == ")")
    ensures ParseLine(t, i).Ok? && ParseLine(t, i).next == j && Meaning(t, ParseLine(t, i).cmd) == LineTree(l)
    ensures Reads(t, j, b)
    decreases l, 4
  {
    hide Reads, ParseLine, ParsePipe, ParseBacks, Skip, Texts, GoodPipe, PipeTexts, PipeTree, Gettoken, Ampersands,
         Stop, Backs, LineTexts, LineTree, GoodLine;
    LineParts(l);
    var e, a1 := LineHead(t, i, a, b, l);
    ReadsAt(t, i, a + b);
    LineOf(t, i);
    var cmd, c := ParsePipe(t, i).cmd, PipeTree(l.pipe);
    if l.Last? {
      NoBacks(c);
      j := BacksRead(t, e, a1, b, l.backs, cmd, c, 0);
      ReadsAt(t, j, b);
    } else {
      var f, a2 := LineSeparator(t, e, a1, b, l.backs, LineTexts(l.rest), cmd, c);
      j := LineRead(t, Gettoken(t, f).next, a2, b, l.rest);
    }
  }

  lemma LineParts(l: LineText)
    ensures LineTexts(l) == PipeTexts(l.pipe) + if l.Last? then Ampersands(l.backs)
                                                else Ampersands(l.backs) + ([";"] + LineTexts(l.rest))
    ensures var c := Backs(PipeTree(l.pipe), l.backs); LineTree(l) == if l.Last? then c else TList(c, LineTree(l.rest))
    ensures GoodLine(l) <==> GoodPipe(l.pipe) && (l.Then? ==> GoodLine(l.rest))
  {
    hide PipeTexts, PipeTree, Ampersands, Backs, GoodPipe;
  }

  lemma NoBacks(c: Tree)
    ensures Backs(c, 0) == c
  {
  }

  /** What comes after the pipeline of a line ends it. */
  lemma AfterPipe(a1: seq<Lexeme>, b: seq<Lexeme>, l: LineText)
    requires b == [] || b[0].text == ")"
    requires Texts(a1) == if l.Last? then Ampersands(l.backs) else Ampersands(l.backs) + ([";"] + LineTexts(l.rest))
    ensures Stop(a1 + b) && (a1 + b != [] ==> (a1 + b)[0].text != "|")
  {
    hide LineTexts;
    if a1 != [] { assert Texts(a1)[0] == a1[0].text; }
  }

  // ---- What the parser has read is a line ----

  lemma JoinTexts(ls: seq<Lexeme>, n: nat, m: nat)
    requires n + m <= |ls|
    ensures Texts(ls[..n + m]) == Texts(ls[..n]) + Texts(ls[n..][..m]) && ls[n..][m..] == ls[n + m..]
  {
    assert ls[..n + m] == ls[..n] + ls[n..][..m];
  }

  lemma FirstText(ls: seq<Lexeme>)
    requires ls != []
    ensures Texts(ls[..1]) == [ls[0].text]
  {
  }

  /** A lexeme with the first character of a mark of one character is that mark. */
  lemma CharMark(t: string, i: nat, ls: seq<Lexeme>, mark: string)
    requires Reads(t, i, ls) && IsMark(mark) && |mark| == 1 && mark != ">" && Ch(t, i) == mark[0]
    ensures ls != [] && ls[0].text == mark
  {
    hide Spell, Skip;
    ReadsAt(t, i, ls);
    if ls != [] {
      assert GoodLexeme(ls[0]);
      FirstOf(ls[0]);
    }
  }

  /** An arrow that is read has a word behind it. */
  lemma FileFound(t: string, i: nat, ls: seq<Lexeme>, rs: seq<Redirection>)
    requires Reads(t, i, ls) && !NoArrow(ls) && ParseRedirs(t, i, rs).Redirs?
    ensures |ls| >= 2 && IsWordText(ls[1].text)
  {
    hide Spell, Skip, GoodLexemes, Gettoken, RedirTo;
    ReadsAt(t, i, ls);
    ArrowChar(ls);
    TokenAt(t, i, ls);
    var k := Past(i, ls[0]);
    ReadsAt(t, k, ls[1..]);
    if |ls| == 1 {
      EndToken(t, k);
    } else {
      TokenAt(t, k, ls[1..]);
      GoodFirst(ls[1..]);
      MarkKind(ls[1]);
    }
  }

  lemma MarkKind(x: Lexeme)
    requires GoodLexeme(x)
    ensures Kind(x.text) == 'a' <==> IsWordText(x.text)
    ensures Kind(x.text) != '\0'
  {
    FirstOf(x);
  }

  function ArrowTo(arrow: string, file: string): Item {
    if arrow == "<" then From(file) else if arrow == ">" then To(file) else AppendTo(file)
  }

  lemma {:induction false} RedirsFound(t: string, i: nat, ls: seq<Lexeme>, rs: seq<Redirection>)
    returns (xs: seq<Item>, n: nat)
    requires Reads(t, i, ls) && ParseRedirs(t, i, rs).Redirs?
    ensures GoodItems(xs) && WordsIn(xs) == [] && n <= |ls| && Texts(ls[..n]) == ItemsTexts(xs)
    ensures Reads(t, ParseRedirs(t, i, rs).end, ls[n..])
    decreases |ls|
  {
    hide Reads, ParseRedirs, NoArrow, Texts, SameRedir, IsWordText;
    if NoArrow(ls) {
      NoRedirsRead(t, i, ls, rs);
      xs, n := [], 0;
      NoTextsYet(ls);
      assert ls[0..] == ls;
    } else {
      FileFound(t, i, ls, rs);
      var x := ArrowTo(ls[0].text, ls[1].text);
      ArrowIs(ls);
      var r, j := RedirRead(t, i, ls, x, rs);
      xs, n := RedirsFound(t, j, ls[2..], rs + [r]);
      JoinTexts(ls, 2, n);
      ItemsMore(x, xs);
      assert Texts(ls[..2]) == ItemTexts(x) by { TwoTexts(ls); }
      xs, n := [x] + xs, n + 2;
    }
  }

  lemma NoTextsYet(ls: seq<Lexeme>)
    ensures Texts(ls[..0]) == []
  {
  }

  lemma TwoTexts(ls: seq<Lexeme>)
    requires |ls| >= 2
    ensures Texts(ls[..2]) == [ls[0].text, ls[1].text]
  {
  }

  lemma ArrowIs(ls: seq<Lexeme>)
    requires |ls| >= 2 && !NoArrow(ls)
    ensures var x := ArrowTo(ls[0].text, ls[1].text);
            !x.Word? && x.file == ls[1].text && ItemTexts(x) == [ls[0].text, ls[1].text]
  {
  }

  lemma ItemsMore(x: Item, xs: seq<Item>)
    ensures ItemsTexts([x] + xs) == ItemTexts(x) + ItemsTexts(xs)
    ensures WordsIn([x] + xs) == (if x.Word? then [x.text] else []) + WordsIn(xs)
  {
    assert ([x] + xs)[1..] == xs;
  }

  lemma NoItemsAtAll()
    ensures ItemsTexts([]) == [] && WordsIn([]) == [] && GoodItems([])
  {
  }

  lemma {:induction false} ItemsBoth(xs: seq<Item>, ys: seq<Item>)
    ensures ItemsTexts(xs + ys) == ItemsTexts(xs) + ItemsTexts(ys) && WordsIn(xs + ys) == WordsIn(xs) + WordsIn(ys)
    decreases |xs|
  {
    hide WordsIn, ItemsTexts, ItemTexts;
    if xs == [] {
      NoItemsAtAll();
      assert xs + ys == ys;
    } else {
      ItemsBoth(xs[1..], ys);
      ItemsMore(xs[0], xs[1..]);
      ItemsMore(xs[0], xs[1..] + ys);
      assert [xs[0]] + xs[1..] == xs && [xs[0]] + (xs[1..] + ys) == xs + ys;
    }
  }

  /** parseexec's loop goes on with a word. */
  lemma ArgFound(t: string, i: nat, ls: seq<Lexeme>, argv: seq<Tok>, rs: seq<Redirection>)
    requires Reads(t, i, ls) && !Stop(ls) && ParseArgs(t, i, argv, rs).Ok?
    ensures ls != [] && IsWordText(ls[0].text) && |argv| + 1 < MAXARGS
  {
    hide Spell, Skip, GoodLexemes, Gettoken, Redirected, ParseRedirs;
    ReadsAt(t, i, ls);
    TokenAt(t, i, ls);
    GoodFirst(ls);
    MarkKind(ls[0]);
    FirstOf(ls[0]);
  }

  lemma {:induction false} ArgsFound(t: string, i: nat, ls: seq<Lexeme>, argv: seq<Tok>, rs: seq<Redirection>)
    returns (xs: seq<Item>, n: nat)
    requires Reads(t, i, ls) && |argv| < MAXARGS && ParseArgs(t, i, argv, rs).Ok?
    ensures GoodItems(xs) && |argv| + |WordsIn(xs)| < MAXARGS && n <= |ls| && Texts(ls[..n]) == ItemsTexts(xs)
    ensures Reads(t, ParseArgs(t, i, argv, rs).next, ls[n..])
    decreases |ls|
  {
    hide Reads, ParseArgs, ParseRedirs, Stop, Texts, IsWordText, Redirected, GoodItems, ItemsTexts, WordsIn;
    if Stop(ls) {
      ArgsStop(t, i, ls, argv, rs);
      xs, n := [], 0;
      NoItemsAtAll();
      NoTextsYet(ls);
      assert ls[0..] == ls;
    } else {
      ArgFound(t, i, ls, argv, rs);
      ArgsTurn(t, i, ls, argv, rs);
      TokenAt(t, i, ls);
      var k, w := Past(i, ls[0]), Word(ls[0].text);
      var ys, m := RedirsFound(t, k, ls[1..], rs);
      var r := ParseRedirs(t, k, rs);
      var zs, p := ArgsFound(t, r.end, ls[1..][m..], argv + [Tok(i, i + |ls[0].text|)], r.rs);
      ArgTexts(ls, m, p, w, ys, zs);
      xs, n := [w] + (ys + zs), 1 + (m + p);
    }
  }

  lemma ArgTexts(ls: seq<Lexeme>, m: nat, p: nat, w: Item, ys: seq<Item>, zs: seq<Item>)
    requires 1 + m + p <= |ls| && w == Word(ls[0].text) && IsWordText(w.text)
    requires GoodItems(ys) && WordsIn(ys) == [] && Texts(ls[1..][..m]) == ItemsTexts(ys)
    requires GoodItems(zs) && Texts(ls[1..][m..][..p]) == ItemsTexts(zs)
    ensures var xs, n := [w] + (ys + zs), 1 + (m + p);
            && GoodItems(xs) && |WordsIn(xs)| == 1 + |WordsIn(zs)|
            && Texts(ls[..n]) == ItemsTexts(xs) && ls[n..] == ls[1..][m..][p..]
  {
    hide Texts, ItemsTexts, WordsIn, IsWordText;
    FirstText(ls);
    JoinTexts(ls[1..], m, p);
    JoinTexts(ls, 1, m + p);
    ItemsBoth(ys, zs);
    ItemsMore(w, ys + zs);
  }

  /** parseblock's parts, from a block that was parsed. */
  lemma BlockParts(t: string, i: nat)
    requires i <= |t| && Skip(t, i) == i && Ch(t, i) == '(' && ParseExec(t, i).Ok?
    ensures var i1 := Gettoken(t, i).next;
            && ParseLine(t, i1).Ok?
            && var e := Skip(t, ParseLine(t, i1).next);
               && Ch(t, e) == ')'
               && var r := ParseRedirs(t, Gettoken(t, e).next, []);
                  r.Redirs? && ParseExec(t, i).next == r.end
  {
    hide ParseLine, ParseRedirs, Gettoken, Skip, Redirected;
  }

  lemma PlainParts(t: string, i: nat)
    requires i <= |t| && Skip(t, i) == i && Ch(t, i) != '(' && ParseExec(t, i).Ok?
    ensures var r := ParseRedirs(t, i, []);
            && r.Redirs?
            && var q := ParseArgs(t, r.end, [], r.rs);
               q.Ok? && ParseExec(t, i).next == q.next
  {
    hide ParseArgs, ParseRedirs, Skip, ParseBlock;
  }

  lemma BlockTexts(ls: seq<Lexeme>, m: nat, p: nat, l: LineText, xs: seq<Item>)
    requires 2 + m + p <= |ls| && ls[0].text == "(" && Texts(ls[1..][..m]) == LineTexts(l)
    requires var ls' := ls[1..][m..]; ls'[0].text == ")" && Texts(ls'[1..][..p]) == ItemsTexts(xs)
    ensures var n := 1 + (m + (1 + p));
            Texts(ls[..n]) == CommandTexts(Paren(l, xs)) && ls[n..] == ls[1..][m..][1..][p..]
  {
    hide Texts, ItemsTexts, LineTexts;
    var ls1 := ls[1..];
    var ls' := ls1[m..];
    FirstText(ls);
    FirstText(ls');
    JoinTexts(ls', 1, p);
    JoinTexts(ls1, m, 1 + p);
    JoinTexts(ls, 1, m + (1 + p));
  }

  lemma {:induction false} CommandFound(t: string, i: nat, ls: seq<Lexeme>) returns (c: CommandText, n: nat)
    requires Reads(t, i, ls) && ParseExec(t, i).Ok?
    ensures GoodCommand(c) && n <= |ls| && Texts(ls[..n]) == CommandTexts(c)
    ensures Reads(t, ParseExec(t, i).next, ls[n..])
    decreases |ls|, 1
  {
    hide Reads, ParseExec, ParseArgs, ParseRedirs, ParseLine, Texts, Skip, GoodItems, GoodLine, LineTexts, Gettoken,
         CommandTexts, ItemsTexts, WordsIn;
    ReadsAt(t, i, ls);
    if Ch(t, i) == '(' {
      BlockParts(t, i);
      CharMark(t, i, ls, "(");
      MarkRead(t, i, ls, "(");
      var i1 := Past(i, ls[0]);
      var l, m := LineFound(t, i1, ls[1..]);
      var e, ls' := ParseLine(t, i1).next, ls[1..][m..];
      ReadsAt(t, e, ls');
      CharMark(t, e, ls', ")");
      MarkRead(t, e, ls', ")");
      var xs, p := RedirsFound(t, Past(e, ls'[0]), ls'[1..], []);
      BlockTexts(ls, m, p, l, xs);
      c, n := Paren(l, xs), 1 + (m + (1 + p));
    } else {
      PlainParts(t, i);
      var ys, m := RedirsFound(t, i, ls, []);
      var r := ParseRedirs(t, i, []);
      var zs, p := ArgsFound(t, r.end, ls[m..], [], r.rs);
      c := PlainFound(ls, m, p, ys, zs);
      n := m + p;
    }
  }

  lemma PlainFound(ls: seq<Lexeme>, m: nat, p: nat, ys: seq<Item>, zs: seq<Item>) returns (c: CommandText)
    requires m + p <= |ls| && Texts(ls[..m]) == ItemsTexts(ys) && Texts(ls[m..][..p]) == ItemsTexts(zs)
    requires GoodItems(ys) && GoodItems(zs) && WordsIn(ys) == [] && |WordsIn(zs)| < MAXARGS
    ensures GoodCommand(c) && Texts(ls[..m + p]) == CommandTexts(c) && ls[m + p..] == ls[m..][p..]
  {
    hide Texts, ItemsTexts, WordsIn, GoodItems;
    JoinTexts(ls, m, p);
    ItemsBoth(ys, zs);
    GoodBoth(ys, zs);
    c := Plain(ys + zs);
  }

  lemma GoodBoth(xs: seq<Item>, ys: seq<Item>)
    requires GoodItems(xs) && GoodItems(ys)
    ensures GoodItems(xs + ys)
  {
    hide GoodItem;
  }

  lemma {:induction false} PipeFound(t: string, i: nat, ls: seq<Lexeme>) returns (p: PipeText, n: nat)
    requires Reads(t, i, ls) && ParsePipe(t, i).Ok?
    ensures GoodPipe(p) && n <= |ls| && Texts(ls[..n]) == PipeTexts(p)
    ensures Reads(t, ParsePipe(t, i).next, ls[n..])
    decreases |ls|, 2
  {
    hide Reads, ParseExec, Texts, Skip, GoodCommand, CommandTexts, Gettoken;
    ReadsAt(t, i, ls);
    var c, m := CommandFound(t, i, ls);
    var e, ls' := ParseExec(t, i).next, ls[m..];
    ReadsAt(t, e, ls');
    if Ch(t, e) == '|' {
      CharMark(t, e, ls', "|");
      MarkRead(t, e, ls', "|");
      var rest, k := PipeFound(t, Past(e, ls'[0]), ls'[1..]);
      FirstText(ls');
      JoinTexts(ls', 1, k);
      JoinTexts(ls, m, 1 + k);
      p, n := Piped(c, rest), m + (1 + k);
    } else {
      p, n := Single(c), m;
    }
  }

  lemma {:induction false} BacksFound(t: string, i: nat, ls: seq<Lexeme>, cmd: Cmd) returns (k: nat, n: nat)
    requires Reads(t, i, ls) && i <= |t|
    ensures n <= |ls| && Texts(ls[..n]) == Ampersands(k) && Reads(t, ParseBacks(t, i, cmd).1, ls[n..])
    decreases |ls|
  {
    hide Reads, Texts, Skip, Gettoken;
    ReadsAt(t, i, ls);
    if Ch(t, i) == '&' {
      CharMark(t, i, ls, "&");
      MarkRead(t, i, ls, "&");
      k, n := BacksFound(t, Past(i, ls[0]), ls[1..], Back(cmd));
      FirstText(ls);
      JoinTexts(ls, 1, n);
      k, n := k + 1, 1 + n;
    } else {
      k, n := 0, 0;
      NoTextsYet(ls);
      assert ls[0..] == ls;
    }
  }

  lemma {:induction false} LineFound(t: string, i: nat, ls: seq<Lexeme>) returns (l: LineText, n: nat)
    requires Reads(t, i, ls) && ParseLine(t, i).Ok?
    ensures GoodLine(l) && n <= |ls| && Texts(ls[..n]) == LineTexts(l)
    ensures Reads(t, ParseLine(t, i).next, ls[n..])
    decreases |ls|, 3
  {
    hide Reads, ParseLine, ParsePipe, ParseBacks, Texts, Skip, GoodPipe, PipeTexts, Gettoken, Ampersands, LineTexts,
         GoodLine;
    ReadsAt(t, i, ls);
    LineHasPipe(t, i);
    LineOf(t, i);
    var p, m := PipeFound(t, i, ls);
    var e, ls1 := ParsePipe(t, i).next, ls[m..];
    ReadsAt(t, e, ls1);
    var k, q := BacksFound(t, e, ls1, ParsePipe(t, i).cmd);
    var f, ls2 := ParseBacks(t, e, ParsePipe(t, i).cmd).1, ls1[q..];
    ReadsAt(t, f, ls2);
    if Ch(t, f) == ';' {
      CharMark(t, f, ls2, ";");
      MarkRead(t, f, ls2, ";");
      var rest, r := LineFound(t, Past(f, ls2[0]), ls2[1..]);
      l, n := Then(p, k, rest), m + (q + (1 + r));
      ThenTexts(ls, m, q, r, l);
    } else {
      JoinTexts(ls, m, q);
      l, n := Last(p, k), m + q;
    }
    LineParts(l);
  }

  lemma ThenTexts(ls: seq<Lexeme>, m: nat, q: nat, r: nat, l: LineText)
    requires m + q + 1 + r <= |ls| && l.Then? && Texts(ls[..m]) == PipeTexts(l.pipe)
    requires var ls1 := ls[m..]; Texts(ls1[..q]) == Ampersands(l.backs)
    requires var ls2 := ls[m..][q..]; ls2[0].text == ";" && Texts(ls2[1..][..r]) == LineTexts(l.rest)
    ensures var n := m + (q + (1 + r)); Texts(ls[..n]) == LineTexts(l) && ls[n..] == ls[m..][q..][1..][r..]
  {
    hide Texts, PipeTexts, Ampersands, LineTexts;
    var ls1 := ls[m..];
    var ls2 := ls1[q..];
    FirstText(ls2);
    JoinTexts(ls2, 1, r);
    JoinTexts(ls1, q, 1 + r);
    JoinTexts(ls, m, q + (1 + r));
    LineParts(l);
  }

  lemma LineHasPipe(t: string, i: nat)
    requires i <= |t| && ParseLine(t, i).Ok?
    ensures ParsePipe(t, i).Ok?
  {
    hide ParsePipe, ParseBacks;
  }

  // ---- The parser accepts exactly the lines ----

  /** t spells l: its lexemes with any white space that keeps them apart. */
  ghost predicate Spells(t: string, l: LineText) {
    exists lead, ls :: IsBlank(lead) && GoodLexemes(ls) && t == lead + Spell(ls) && Texts(ls) == LineTexts(l)
  }

  /** A string of C. */
  predicate IsText(t: string) {
    forall k :: 0 <= k < |t| ==> t[k] != '\0'
  }

  lemma SkipTwice(t: string, i: nat)
    requires i <= |t|
    ensures Skip(t, Skip(t, i)) == Skip(t, i)
  {
    Still(t, Skip(t, i));
  }

  /** White space in front of a line is skipped. */
  lemma LineSkips(t: string, i: nat)
    requires i <= |t|
    ensures ParseLine(t, i) == ParseLine(t, Skip(t, i))
  {
    hide ParseArgs, ParseBlock, ParseBacks, Skip, Gettoken;
    SkipTwice(t, i);
    assert ParseRedirs(t, i, []) == ParseRedirs(t, Skip(t, i), []);
    assert ParseExec(t, i) == ParseExec(t, Skip(t, i));
    assert ParsePipe(t, i) == ParsePipe(t, Skip(t, i));
  }

  lemma LeadReads(t: string, lead: string, ls: seq<Lexeme>)
    requires IsBlank(lead) && GoodLexemes(ls) && t == lead + Spell(ls)
    ensures Reads(t, |lead|, ls) && Skip(t, 0) == |lead|
  {
    hide GoodLexemes;
    assert t[|lead|..] == Spell(ls);
    assert t[0..0 + |lead|] == lead;
    ReadsAt(t, |lead|, ls);
    Still2(t, |lead|);
    SkipBlank(t, 0, lead, 0);
  }

  /** A text that spells a line is accepted, and the tree built is the line's: the
      words in order, each redirection around what came before it, pipelines nested to
      the right, every "&" around its pipeline, and ";" taking the rest of the line. */
  lemma LineParses(t: string, l: LineText)
    requires GoodLine(l) && Spells(t, l)
    ensures ParseCmd(t).Ok? && Meaning(t, ParseCmd(t).cmd) == LineTree(l)
  {
    hide Reads, ParseLine, GoodLexemes, Spell, Texts, LineTexts, LineTree, GoodLine, Skip;
    var lead, ls :| IsBlank(lead) && GoodLexemes(ls) && t == lead + Spell(ls) && Texts(ls) == LineTexts(l);
    LeadReads(t, lead, ls);
    LineSkips(t, 0);
    assert ls + [] == ls;
    var j := LineRead(t, |lead|, ls, [], l);
    ReadsAt(t, j, []);
  }

  /** The lexemes of a text from a place where one starts. */
  lemma {:induction false} LexFrom(t: string, i: nat) returns (ls: seq<Lexeme>)
    requires i <= |t| && IsText(t) && Skip(t, i) == i
    ensures Reads(t, i, ls)
    decreases |t| - i
  {
    hide Skip, Gettoken, GoodLexemes, IsText;
    if i == |t| {
      ls := [];
      NothingReads(t);
    } else {
      var tok := Gettoken(t, i);
      TokenGood(t, i);
      SkipTwice(t, tok.eq);
      var rest := LexFrom(t, tok.next);
      var x := Lexeme(t[tok.q..tok.eq], t[tok.eq..tok.next]);
      TokenApart(t, i, rest);
      ls := [x] + rest;
      assert ls[1..] == rest;
      GoodMore(x, rest);
      assert t[i..] == x.text + x.gap + t[tok.next..];
    }
  }

  lemma NothingReads(t: string)
    ensures Reads(t, |t|, [])
  {
  }

  lemma GoodMore(x: Lexeme, ls: seq<Lexeme>)
    requires GoodLexeme(x) && GoodLexemes(ls) && (ls != [] ==> Apart(x, ls[0]))
    ensures GoodLexemes([x] + ls)
  {
    hide GoodLexeme, Apart;
    forall k | 0 <= k < |[x] + ls| - 1 ensures Apart(([x] + ls)[k], ([x] + ls)[k + 1]) {
      if k > 0 { assert Apart(ls[k - 1], ls[k]); }
    }
  }

  lemma {:induction false} SkippedBlank(t: string, i: nat)
    requires i <= |t|
    ensures IsBlank(t[i..Skip(t, i)])
    decreases |t| - i
  {
    if i < |t| && IsSpace(t[i]) {
      SkippedBlank(t, i + 1);
      assert t[i..Skip(t, i)] == [t[i]] + t[i + 1..Skip(t, i + 1)];
    }
  }

  /** What gettoken reads is a lexeme. */
  lemma TokenGood(t: string, i: nat)
    requires i < |t| && IsText(t) && Skip(t, i) == i
    ensures var tok := Gettoken(t, i);
            i == tok.q < tok.eq <= tok.next <= |t| && GoodLexeme(Lexeme(t[tok.q..tok.eq], t[tok.eq..tok.next]))
  {
    hide Skip, WordEnd;
    var tok := Gettoken(t, i);
    SkippedBlank(t, tok.eq);
    Still2(t, i);
    if IsWord(t[i]) {
      WordEndRun(t, i);
      WordEndPast(t, i);
    }
  }

  lemma WordEndPast(t: string, i: nat)
    requires i < |t| && IsWord(t[i])
    ensures WordEnd(t, i) > i
  {
  }

  /** And the next one cannot have been part of it. */
  lemma TokenApart(t: string, i: nat, rest: seq<Lexeme>)
    requires i < |t| && IsText(t) && Skip(t, i) == i && Reads(t, Gettoken(t, i).next, rest)
    ensures var tok := Gettoken(t, i);
            rest != [] ==> Apart(Lexeme(t[tok.q..tok.eq], t[tok.eq..tok.next]), rest[0])
  {
    hide Skip, WordEnd, Reads;
    var tok := Gettoken(t, i);
    ReadsAt(t, tok.next, rest);
    if rest != [] && tok.eq == tok.next {
      var x, y := t[tok.q..tok.eq], rest[0].text;
      assert Ch(t, tok.eq) == y[0];
      if IsWordText(x) {
        assert IsWord(x[0]);
        assert !IsWord(y[0]);
      }
      if x == ">" { assert t[i] == '>'; }
    }
  }

  /** Every text is white space and lexemes. */
  lemma EveryText(t: string) returns (lead: string, ls: seq<Lexeme>)
    requires IsText(t)
    ensures IsBlank(lead) && GoodLexemes(ls) && t == lead + Spell(ls)
  {
    hide GoodLexemes, Spell, Skip;
    var i := Skip(t, 0);
    SkippedBlank(t, 0);
    SkipTwice(t, 0);
    lead := t[0..i];
    ls := LexFrom(t, i);
    assert t == t[0..i] + t[i..];
  }

  /** The parser accepts a text if and only if it spells a line. */
  lemma AcceptsLines(t: string)
    requires IsText(t)
    ensures ParseCmd(t).Ok? <==> exists l :: GoodLine(l) && Spells(t, l)
  {
    hide GoodLexemes, Spell, Skip, GoodLine, ParseLine, Texts, LineTexts, Reads;
    if l :| GoodLine(l) && Spells(t, l) {
      LineParses(t, l);
    }
    if ParseCmd(t).Ok? {
      var lead, ls := EveryText(t);
      LeadReads(t, lead, ls);
      LineSkips(t, 0);
      var l, n := LineFound(t, |lead|, ls);
      var j := ParseLine(t, |lead|).next;
      ReadsAt(t, j, ls[n..]);
      assert ls[..n] == ls;
      assert Spells(t, l);
    }
  }

  // ---- Printing ----

  /** A tree as a line, with every subcommand in parentheses. */
  function AsLine(c: Tree): LineText {
    match c
    case TExec(words) => Last(Single(Plain(AsWords(words))), 0)
    case TRedir(d, file, mode, fd) => Last(Single(Paren(AsLine(d), [if fd == 0 then From(file) else To(file)])), 0)
    case TPipe(l, r) => Last(Piped(Paren(AsLine(l), []), Single(Paren(AsLine(r), []))), 0)
    case TList(l, r) => Then(Single(Paren(AsLine(l), [])), 0, Last(Single(Paren(AsLine(r), [])), 0))
    case TBack(d) => Last(Single(Paren(AsLine(d), [])), 1)
  }

  function AsWords(words: seq<string>): (xs: seq<Item>)
    ensures |xs| == |words| && forall k :: 0 <= k < |xs| ==> xs[k] == Word(words[k])
  {
    seq(|words|, k requires 0 <= k < |words| => Word(words[k]))
  }

  /** A space after every lexeme. */
  function Spaced(texts: seq<string>): (ls: seq<Lexeme>)
    ensures |ls| == |texts| && forall k :: 0 <= k < |ls| ==> ls[k] == Lexeme(texts[k], " ")
  {
    seq(|texts|, k requires 0 <= k < |texts| => Lexeme(texts[k], " "))
  }

  function Print(c: Tree): string {
    Spell(Spaced(LineTexts(AsLine(c))))
  }

  lemma {:induction false} PlainWords(c: Tree, words: seq<string>)
    ensures WordsIn(AsWords(words)) == words && Wrapped(c, AsWords(words)) == c
    decreases |words|
  {
    if words != [] {
      PlainWords(c, words[1..]);
      assert AsWords(words)[1..] == AsWords(words[1..]);
      assert words == [words[0]] + words[1..];
    }
  }

  lemma ParenGood(l: LineText)
    requires GoodLine(l)
    ensures GoodPipe(Single(Paren(l, []))) && PipeTree(Single(Paren(l, []))) == LineTree(l)
  {
    hide GoodLine, LineTree;
  }

  lemma RedirGood(l: LineText, file: string, mode: nat, fd: nat)
    requires GoodLine(l) && IsWordText(file) && GoodMode(mode, fd)
    ensures var p := Single(Paren(l, [if fd == 0 then From(file) else To(file)]));
            GoodPipe(p) && PipeTree(p) == TRedir(LineTree(l), file, mode, fd)
  {
    hide GoodLine, LineTree, IsWordText;
    var x := if fd == 0 then From(file) else To(file);
    assert [x][1..] == [] && WordsIn([x]) == [] && GoodItem(x);
    assert Wrapped(LineTree(l), [x]) == Around(LineTree(l), x);
  }

  lemma WordsGood(words: seq<string>)
    requires |words| < MAXARGS && forall k :: 0 <= k < |words| ==> IsWordText(words[k])
    ensures var p := Single(Plain(AsWords(words))); GoodPipe(p) && PipeTree(p) == TExec(words)
  {
    hide IsWordText;
    PlainWords(TExec(words), words);
  }

  lemma OnePipe(p: PipeText)
    requires GoodPipe(p)
    ensures GoodLine(Last(p, 0)) && LineTree(Last(p, 0)) == PipeTree(p)
    ensures GoodLine(Last(p, 1)) && LineTree(Last(p, 1)) == TBack(PipeTree(p))
  {
    hide GoodPipe, PipeTree;
    assert Backs(PipeTree(p), 1) == TBack(Backs(PipeTree(p), 0));
  }

  lemma {:induction false} PrintsTree(c: Tree)
    requires Printable(c)
    ensures GoodLine(AsLine(c)) && LineTree(AsLine(c)) == c
  {
    hide GoodLine, LineTree, GoodCommand, CommandTree, IsWordText;
    match c
    case TExec(words) =>
      WordsGood(words);
      OnePipe(Single(Plain(AsWords(words))));
    case TRedir(d, file, mode, fd) =>
      PrintsTree(d);
      RedirGood(AsLine(d), file, mode, fd);
      OnePipe(AsLine(c).pipe);
    case TPipe(l, r) =>
      PrintsTree(l);
      PrintsTree(r);
      ParenGood(AsLine(l));
      ParenGood(AsLine(r));
      OnePipe(AsLine(c).pipe);
    case TList(l, r) =>
      PrintsTree(l);
      PrintsTree(r);
      ParenGood(AsLine(l));
      ParenGood(AsLine(r));
      OnePipe(AsLine(c).rest.pipe);
      OnePipe(AsLine(c).pipe);
      LineParts(Last(AsLine(c).pipe, 0));
      LineParts(AsLine(c));
    case TBack(d) =>
      PrintsTree(d);
      ParenGood(AsLine(d));
      OnePipe(AsLine(c).pipe);
  }

  predicate GoodTexts(ws: seq<string>) {
    forall k {:trigger ws[k]} :: 0 <= k < |ws| ==> IsWordText(ws[k]) || IsMark(ws[k])
  }

  lemma TextsBoth(u: seq<string>, v: seq<string>)
    requires GoodTexts(u) && GoodTexts(v)
    ensures GoodTexts(u + v)
  {
    hide IsWordText, IsMark;
  }

  lemma {:induction false} ItemsGood(xs: seq<Item>)
    requires GoodItems(xs)
    ensures GoodTexts(ItemsTexts(xs))
  {
    hide IsWordText;
    if xs != [] {
      ItemsGood(xs[1..]);
      assert GoodItem(xs[0]);
      TextsBoth(ItemTexts(xs[0]), ItemsTexts(xs[1..]));
    }
  }

  lemma {:induction false} CommandGood(c: CommandText)
    requires GoodCommand(c)
    ensures GoodTexts(CommandTexts(c))
    decreases c, 0
  {
    hide IsWordText, GoodTexts, GoodItems, ItemsTexts;
    if c.Plain? {
      ItemsGood(c.items);
    } else {
      LineGood(c.line);
      ItemsGood(c.redirs);
      MarkGood("(");
      MarkGood(")");
      TextsBoth([")"], ItemsTexts(c.redirs));
      TextsBoth(LineTexts(c.line), [")"] + ItemsTexts(c.redirs));
      TextsBoth(["("], LineTexts(c.line) + ([")"] + ItemsTexts(c.redirs)));
    }
  }

  lemma MarkGood(s: string)
    requires IsMark(s)
    ensures GoodTexts([s])
  {
  }

  lemma {:induction false} PipeGood(p: PipeText)
    requires GoodPipe(p)
    ensures GoodTexts(PipeTexts(p))
    decreases p, 1
  {
    hide IsWordText, GoodTexts, GoodCommand, CommandTexts;
    CommandGood(p.cmd);
    if p.Piped? {
      PipeGood(p.rest);
      MarkGood("|");
      TextsBoth(["|"], PipeTexts(p.rest));
      TextsBoth(CommandTexts(p.cmd), ["|"] + PipeTexts(p.rest));
    }
  }

  lemma {:induction false} AmpersandsGood(n: nat)
    ensures GoodTexts(Ampersands(n))
  {
    if n > 0 { AmpersandsGood(n - 1); }
  }

  lemma {:induction false} LineGood(l: LineText)
    requires GoodLine(l)
    ensures GoodTexts(LineTexts(l))
    decreases l, 2
  {
    hide IsWordText, GoodTexts, GoodPipe, PipeTexts, Ampersands;
    PipeGood(l.pipe);
    AmpersandsGood(l.backs);
    if l.Then? {
      LineGood(l.rest);
      MarkGood(";");
      TextsBoth([";"], LineTexts(l.rest));
      TextsBoth(Ampersands(l.backs), [";"] + LineTexts(l.rest));
      TextsBoth(PipeTexts(l.pipe), Ampersands(l.backs) + ([";"] + LineTexts(l.rest)));
    } else {
      TextsBoth(PipeTexts(l.pipe), Ampersands(l.backs));
    }
  }

  /** Every line has a spelling. */
  lemma SpacedSpells(l: LineText)
    requires GoodLine(l)
    ensures Spells(Spell(Spaced(LineTexts(l))), l)
  {
    hide LineTexts, GoodLine, Spell, IsWordText, IsMark;
    LineGood(l);
    var ls := Spaced(LineTexts(l));
    var lead: string := "";
    assert lead + Spell(ls) == Spell(ls);
    assert IsBlank(lead) && GoodLexemes(ls) && Spell(ls) == lead + Spell(ls) && Texts(ls) == LineTexts(l);
  }

  /** Printing a command and parsing the text gives the command back. */
  lemma RoundTrip(c: Tree)
    requires Printable(c)
    ensures ParseCmd(Print(c)).Ok? && Meaning(Print(c), ParseCmd(Print(c)).cmd) == c
  {
    hide ParseCmd, LineTexts, GoodLine, Spells;
    PrintsTree(c);
    SpacedSpells(AsLine(c));
    LineParses(Print(c), AsLine(c));
  }

  /** The parser's image is within what can be printed and parsed again: printing a
      parsed line and parsing that gives the same tree. */
  lemma ParsedPrintable(t: string)
    requires ParseCmd(t).Ok?
    ensures var c := Meaning(t, ParseCmd(t).cmd);
            && Printable(c)
            && ParseCmd(Print(c)).Ok? && Meaning(Print(c), ParseCmd(Print(c)).cmd) == c
  {
    hide ParseLine, Print, Meaning, Printable, AllRuns, Shaped;
    LineRuns(t, 0);
    RunsPrintable(t, ParseCmd(t).cmd);
    RoundTrip(Meaning(t, ParseCmd(t).cmd));
  }
}
