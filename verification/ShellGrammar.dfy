/** What command lines mean: the grammar of sh.c as typed, with any spacing, and the parser against it in both
    directions. */
module ShellGrammar {
  import opened Common
  import opened Shell

  // ---------------------------------------------------------------- the grammar

  datatype How = Input | Output | Append

  /** A part of a simple command: an argument, or a redirection, which may stand anywhere among them. */
  datatype Item = Arg(word: string) | To(how: How, file: string)

  datatype Elem = Simple(items: seq<Item>) | Group(line: Jobs, files: seq<Item>)

  datatype Pipeline = One(elem: Elem) | Bar(elem: Elem, more: Pipeline)

  /** Pipelines with a number of `&` each, separated by `;`. */
  datatype Jobs = Last(job: Pipeline, amps: nat) | Then(job: Pipeline, amps: nat, more: Jobs)

  function Sign(how: How): (r: string) {
    match how case Input => "<" case Output => ">" case Append => ">>"
  }

  function Words(items: seq<Item>): (ws: seq<string>) {
    if items == [] then [] else (if items[0].Arg? then [items[0].word] else []) + Words(items[1..])
  }

  function Files(items: seq<Item>): (fs: seq<Item>) {
    if items == [] then [] else (if items[0].To? then [items[0]] else []) + Files(items[1..])
  }

  /** At most MAXARGS-1 arguments per command, and only redirections behind a parenthesis. */
  predicate Allowed(e: Elem)
    decreases e
  {
    match e
    case Simple(items) => |Words(items)| < MAXARGS
    case Group(line, files) => AllowedJobs(line) && forall k | 0 <= k < |files| :: files[k].To?
  }

  predicate AllowedPipe(p: Pipeline)
    decreases p
  {
    Allowed(p.elem) && (p.Bar? ==> AllowedPipe(p.more))
  }

  predicate AllowedJobs(x: Jobs)
    decreases x
  {
    AllowedPipe(x.job) && (x.Then? ==> AllowedJobs(x.more))
  }

  // ---------------------------------------------------------------- what it means

  /** The tree inside these redirections, the last one outermost. */
  function Around(t: Tree, files: seq<Item>): (r: Tree)
    decreases |files|
  {
    if files == [] then t
    else
      var f := files[|files| - 1];
      if f.To? then TRedir(Around(t, files[..|files| - 1]), f.file, !f.how.Input?) else Around(t, files[..|files| - 1])
  }

  function Behind(t: Tree, amps: nat): (r: Tree) {
    if amps == 0 then t else TBack(Behind(t, amps - 1))
  }

  function ElemTree(e: Elem): (t: Tree)
    decreases e
  {
    match e
    case Simple(items) => Around(TExec(Words(items)), Files(items))
    case Group(line, files) => Around(JobsTree(line), files)
  }

  function PipeTree(p: Pipeline): (t: Tree)
    decreases p
  {
    match p
    case One(e) => ElemTree(e)
    case Bar(e, more) => TPipe(ElemTree(e), PipeTree(more))
  }

  function JobsTree(x: Jobs): (t: Tree)
    decreases x
  {
    match x
    case Last(p, n) => Behind(PipeTree(p), n)
    case Then(p, n, more) => TList(Behind(PipeTree(p), n), JobsTree(more))
  }

  // ---------------------------------------------------------------- how it is typed

  /** Nothing but white space from a to b, and something else at b. */
  predicate Blank(s: Line, a: nat, b: nat) {
    a <= b <= |s| && (forall k | a <= k < b :: IsSpace(s[k])) && !IsSpace(At(s, b))
  }

  /** From i to j the line has this symbol and white space. A `>` is not the first of two. */
  predicate SymAt(s: Line, i: nat, j: nat, x: string) {
    i + |x| <= j && Blank(s, i + |x|, j) && s[i..i + |x|] == x && (x == ">" ==> At(s, i + 1) != '>')
  }

  /** From i to j the line has this word, whole, and white space. */
  predicate WordAt(s: Line, i: nat, j: nat, w: string) {
    Word(w) && i + |w| <= j && Blank(s, i + |w|, j) && s[i..i + |w|] == w && !IsWord(At(s, i + |w|))
  }

  ghost predicate ItemAt(s: Line, i: nat, j: nat, it: Item) {
    match it
    case Arg(w) => WordAt(s, i, j, w)
    case To(how, f) => exists m: nat :: SymAt(s, i, m, Sign(how)) && WordAt(s, m, j, f)
  }

  ghost predicate ItemsAt(s: Line, i: nat, j: nat, items: seq<Item>)
    decreases |items|
  {
    if items == [] then i == j
    else exists m: nat :: ItemAt(s, i, m, items[0]) && ItemsAt(s, m, j, items[1..])
  }

  ghost predicate ElemAt(s: Line, i: nat, j: nat, e: Elem)
    decreases e
  {
    match e
    case Simple(items) => ItemsAt(s, i, j, items)
    case Group(line, files) =>
      exists a: nat, b: nat, c: nat ::
        SymAt(s, i, a, "(") && JobsAt(s, a, b, line) && SymAt(s, b, c, ")") && ItemsAt(s, c, j, files)
  }

  ghost predicate PipeAt(s: Line, i: nat, j: nat, p: Pipeline)
    decreases p
  {
    match p
    case One(e) => ElemAt(s, i, j, e)
    case Bar(e, more) => exists a: nat, b: nat :: ElemAt(s, i, a, e) && SymAt(s, a, b, "|") && PipeAt(s, b, j, more)
  }

  ghost predicate AmpsAt(s: Line, i: nat, j: nat, n: nat)
    decreases n
  {
    if n == 0 then i == j else exists m: nat :: SymAt(s, i, m, "&") && AmpsAt(s, m, j, n - 1)
  }

  ghost predicate JobsAt(s: Line, i: nat, j: nat, x: Jobs)
    decreases x
  {
    match x
    case Last(p, n) => exists a: nat :: PipeAt(s, i, a, p) && AmpsAt(s, a, j, n)
    case Then(p, n, more) =>
      exists a: nat, b: nat, c: nat ::
        PipeAt(s, i, a, p) && AmpsAt(s, a, b, n) && SymAt(s, b, c, ";") && JobsAt(s, c, j, more)
  }

  /** The whole line, but for white space in front, is this list of jobs. */
  ghost predicate Typed(s: Line, x: Jobs) {
    exists i: nat :: Blank(s, 0, i) && JobsAt(s, i, |s|, x)
  }

  // ---------------------------------------------------------------- tokens

  lemma {:induction false} BlankSkips(s: Line, a: nat, b: nat)
    requires Blank(s, a, b)
    ensures SkipSpace(s, a) == b
    decreases b - a
  {
    if a < b { BlankSkips(s, a + 1, b); }
  }

  lemma {:induction false} SkipIsBlank(s: Line, a: nat)
    requires a <= |s|
    ensures Blank(s, a, SkipSpace(s, a))
    decreases |s| - a
  {
    if a < |s| && IsSpace(s[a]) { SkipIsBlank(s, a + 1); }
  }

  /** The symbols of the grammar. */
  predicate IsSign(x: string) {
    (|x| == 1
     && (x[0] == '(' || x[0] == ')' || x[0] == '|' || x[0] == '&' || x[0] == ';' || x[0] == '<' || x[0] == '>'))
    || (|x| == 2 && x[0] == '>' && x[1] == '>')
  }

  lemma SymIsToken(s: Line, i: nat, j: nat, x: string)
    requires SymAt(s, i, j, x) && IsSign(x)
    ensures i < j <= |s| && !IsSpace(At(s, i)) && !IsSpace(At(s, j)) && At(s, i) == x[0]
    ensures GetToken(s, i) == Token(if |x| == 2 then '+' else x[0], Span(i, i + |x|), j)
  {
    hide GetToken, IsSpace;
    assert s[i] == s[i..i + |x|][0];
    if |x| == 2 { assert s[i + 1] == s[i..i + |x|][1]; }
    SymbolsAreNotSpace();
    SignToken(s, i, i + |x|, j);
  }

  lemma SignToken(s: Line, i: nat, e: nat, j: nat)
    requires i < e <= |s| && Blank(s, e, j)
    requires var c := s[i];
             if e == i + 1 then c == '(' || c == ')' || c == '|' || c == '&' || c == ';' || c == '<'
                                || (c == '>' && At(s, i + 1) != '>')
             else e == i + 2 && c == '>' && s[i + 1] == '>'
    ensures GetToken(s, i) == Token(if e == i + 2 then '+' else s[i], Span(i, e), j)
  {
    hide SkipSpace, WordEnd;
    BlankSkips(s, e, j);
    Signs(s[i]);
    hide IsSpace;
    StaysThere(s, i);
  }

  lemma Signs(c: char)
    ensures c in "|();&<" <==> c == '|' || c == '(' || c == ')' || c == ';' || c == '&' || c == '<'
    ensures c in "|();&<" || c == '>' ==> c != NUL && !IsSpace(c)
  {
    var t := "|();&<";
    assert t[0] == '|' && t[1] == '(' && t[2] == ')' && t[3] == ';' && t[4] == '&' && t[5] == '<';
  }

  lemma StaysThere(s: Line, i: nat)
    requires i <= |s| && !IsSpace(At(s, i))
    ensures SkipSpace(s, i) == i
  {
  }

  lemma WordIsToken(s: Line, i: nat, j: nat, w: string)
    requires WordAt(s, i, j, w)
    ensures i < j <= |s| && IsWord(At(s, i)) && !IsSpace(At(s, i)) && !IsSpace(At(s, j))
    ensures GetToken(s, i) == Token('a', Span(i, i + |w|), j) && Text(s, Span(i, i + |w|)) == w
  {
    BlankSkips(s, i + |w|, j);
    forall k | i <= k < i + |w| ensures s[k] == w[k - i] { assert s[i..i + |w|][k - i] == w[k - i]; }
    WordEndAt(s, i, i + |w|);
  }

  /** What gettoken takes is there. */
  lemma TokenIsThere(s: Line, i: nat)
    requires i <= |s| && !IsSpace(At(s, i))
    ensures var t := GetToken(s, i);
            && t.span.q == i && t.pos <= |s| && !IsSpace(At(s, t.pos))
            && (t.kind == 'a' ==> WordAt(s, i, t.pos, Text(s, t.span)))
            && (t.kind == '+' ==> SymAt(s, i, t.pos, ">>") && At(s, i) == '>')
            && (t.kind != NUL && t.kind != 'a' && t.kind != '+' ==>
                  SymAt(s, i, t.pos, [At(s, i)]) && t.kind == At(s, i))
            && (t.kind == NUL ==> i == |s|)
  {
    hide Peek, SkipSpace, IsSpace;
    StaysThere(s, i);
    var t := GetToken(s, i);
    SkipIsBlank(s, t.span.eq);
    if t.kind == 'a' {
      assert i < |s| && s[i] != '>';
      assert GoodSpan(s, t.span);
    } else if t.kind == '+' {
      assert s[i..i + 2] == ">>";
    } else if t.kind != NUL {
      assert s[i..i + 1] == [s[i]];
    }
  }

  // ---------------------------------------------------------------- what is typed is parsed

  /** A command may end here. */
  predicate Stops(s: Line, j: nat) { j <= |s| && (At(s, j) == NUL || At(s, j) in ")|&;") }

  ghost predicate FilesMatch(s: Line, rs: seq<Redirection>, files: seq<Item>) {
    && |rs| == |files|
    && forall k | 0 <= k < |rs| ::
         files[k].To? && Text(s, rs[k].file) == files[k].file && rs[k].output == !files[k].how.Input?
  }

  ghost predicate WordsMatch(s: Line, args: seq<Span>, ws: seq<string>) {
    |args| == |ws| && forall k | 0 <= k < |args| :: Text(s, args[k]) == ws[k]
  }

  lemma {:induction false} WrapSpells(s: Line, c: Cmd, rs: seq<Redirection>, files: seq<Item>)
    requires FilesMatch(s, rs, files)
    ensures Spell(s, Wrap(c, rs)) == Around(Spell(s, c), files)
    decreases |rs|
  {
    hide Text;
    if rs != [] { WrapSpells(s, c, rs[..|rs| - 1], files[..|rs| - 1]); }
  }

  lemma ExecSpells(s: Line, args: seq<Span>, ws: seq<string>)
    requires WordsMatch(s, args, ws)
    ensures Spell(s, Exec(args)) == TExec(ws)
  {
    hide Text;
    assert Spell(s, Exec(args)).words == ws;
  }

  /** How a run of parts starts. */
  lemma ItemsStart(s: Line, i: nat, j: nat, items: seq<Item>)
    requires i <= |s| && ItemsAt(s, i, j, items)
    ensures items == [] ==> i == j
    ensures items != [] && items[0].Arg? ==> IsWord(At(s, i))
    ensures items != [] && items[0].To? ==> At(s, i) == '<' || At(s, i) == '>'
  {
    hide Word, GetToken, Text;
    if items != [] {
      var m: nat :| ItemAt(s, i, m, items[0]) && ItemsAt(s, m, j, items[1..]);
      match items[0]
      case Arg(w) => WordIsToken(s, i, m, w);
      case To(how, f) =>
        var a: nat :| SymAt(s, i, a, Sign(how)) && WordAt(s, a, m, f);
        SymIsToken(s, i, a, Sign(how));
    }
  }

  lemma FirstFile(items: seq<Item>)
    requires items != [] && items[0].To?
    ensures Words(items) == Words(items[1..]) && Files(items) == [items[0]] + Files(items[1..])
  {
    assert [] + Words(items[1..]) == Words(items[1..]);
  }

  lemma {:induction false} Prefixed(items: seq<Item>, n: nat)
    requires n <= |items| && forall k | 0 <= k < n :: items[k].To?
    ensures Words(items) == Words(items[n..]) && Files(items) == items[..n] + Files(items[n..])
    decreases n
  {
    hide Words, Files;
    if n == 0 {
      assert items[0..] == items && items[..0] == [] && [] + Files(items) == Files(items);
    } else {
      FirstFile(items);
      Prefixed(items[1..], n - 1);
      assert items[1..][n - 1..] == items[n..];
      assert items[..n] == [items[0]] + items[1..][..n - 1];
      assert [items[0]] + (items[1..][..n - 1] + Files(items[n..])) == items[..n] + Files(items[n..]);
    }
  }

  lemma RedirsStep(s: Line, i: nat, a: nat, e: nat, how: How, f: string)
    requires i <= |s| && SymAt(s, i, a, Sign(how)) && WordAt(s, a, e, f)
    ensures e <= |s| && !IsSpace(At(s, e))
    ensures var rd := Redirection(Span(a, a + |f|), !how.Input?);
            var rest := Redirs(s, e);
            && Redirs(s, i) == (if rest.Panic? then rest else Ok([rd] + rest.value, rest.pos))
            && Text(s, rd.file) == f
  {
    hide GetToken, Peek, SkipSpace, IsSpace, Word, Text, IsWord;
    SymIsToken(s, i, a, Sign(how));
    WordIsToken(s, a, e, f);
    Looks(s, i);
  }

  lemma FilesCons(s: Line, rd: Redirection, rs: seq<Redirection>, items: seq<Item>, n: nat)
    requires items != [] && n <= |items[1..]| && FilesMatch(s, rs, items[1..][..n])
    requires items[0].To? && Text(s, rd.file) == items[0].file && rd.output == !items[0].how.Input?
    ensures FilesMatch(s, [rd] + rs, items[..n + 1]) && items[1..][n..] == items[n + 1..]
  {
    hide Text;
    assert items[..n + 1] == [items[0]] + items[1..][..n];
  }

  /** parseredirs takes the redirections up to the next argument. */
  lemma {:induction false} RedirsOf(s: Line, i: nat, j: nat, items: seq<Item>)
    returns (rs: seq<Redirection>, m: nat, n: nat)
    requires i <= |s| && !IsSpace(At(s, i)) && ItemsAt(s, i, j, items) && Stops(s, j)
    ensures n <= |items| && (forall k | 0 <= k < n :: items[k].To?) && (n < |items| ==> items[n].Arg?)
    ensures m <= |s| && !IsSpace(At(s, m)) && ItemsAt(s, m, j, items[n..])
    ensures Redirs(s, i) == Ok(rs, m) && FilesMatch(s, rs, items[..n])
    decreases |items|
  {
    hide GetToken, Peek, SkipSpace, IsSpace, Word, Text, IsWord, Redirs, FilesMatch, SymAt, WordAt;
    if items == [] || items[0].Arg? {
      ItemsStart(s, i, j, items);
      SymbolsAreNotSpace();
      NoRedirs(s, i);
      assert items[0..] == items;
      rs, m, n := [], i, 0;
      NoFiles(s, items);
    } else {
      var how, f := items[0].how, items[0].file;
      var e: nat :| ItemAt(s, i, e, items[0]) && ItemsAt(s, e, j, items[1..]);
      var a: nat :| SymAt(s, i, a, Sign(how)) && WordAt(s, a, e, f);
      RedirsStep(s, i, a, e, how, f);
      var rest;
      rest, m, n := RedirsOf(s, e, j, items[1..]);
      rs := [Redirection(Span(a, a + |f|), !how.Input?)] + rest;
      FilesCons(s, rs[0], rest, items, n);
      n := n + 1;
    }
  }

  lemma NoFiles(s: Line, items: seq<Item>)
    ensures FilesMatch(s, [], items[..0])
  {
  }

  lemma ArgsStep(s: Line, i: nat, args: seq<Span>, rs: seq<Redirection>, e: nat, w: string,
                 rs1: seq<Redirection>, m: nat)
    requires i <= |s| && WordAt(s, i, e, w) && |args| + 1 < MAXARGS
    requires e <= |s| && Redirs(s, e) == Ok(rs1, m) && m <= |s|
    ensures Args(s, i, args, rs) == Args(s, m, args + [Span(i, i + |w|)], rs + rs1)
    ensures Text(s, Span(i, i + |w|)) == w
  {
    hide GetToken, Peek, SkipSpace, IsSpace, Word, Text, IsWord, Redirs;
    WordIsToken(s, i, e, w);
    SymbolsAreNotSpace();
    Looks(s, i);
  }

  lemma FirstArg(s: Line, i: nat, j: nat, items: seq<Item>) returns (e: nat)
    requires i <= |s| && ItemsAt(s, i, j, items) && items != [] && items[0].Arg?
    ensures WordAt(s, i, e, items[0].word) && i < e <= |s| && !IsSpace(At(s, e)) && ItemsAt(s, e, j, items[1..])
  {
    hide GetToken, IsSpace, Word, Text, WordAt;
    e :| ItemAt(s, i, e, items[0]) && ItemsAt(s, e, j, items[1..]);
    WordIsToken(s, i, e, items[0].word);
  }

  /** The loop of parseexec takes all parts of the command. */
  lemma {:induction false} ArgsOf(s: Line, i: nat, j: nat, items: seq<Item>, args: seq<Span>, rs: seq<Redirection>)
    returns (out: seq<Span>, more: seq<Redirection>)
    requires i <= |s| && !IsSpace(At(s, i)) && ItemsAt(s, i, j, items) && Stops(s, j)
    requires (items != [] ==> items[0].Arg?) && |args| + |Words(items)| < MAXARGS
    ensures Args(s, i, args, rs) == Ok(Wrap(Exec(args + out), rs + more), j)
    ensures WordsMatch(s, out, Words(items)) && FilesMatch(s, more, Files(items))
    decreases |items|
  {
    hide GetToken, Peek, SkipSpace, IsSpace, Word, Text, IsWord, Redirs, Wrap, Args, WordAt, FilesMatch, WordsMatch,
      Words, Files, Stops, ItemsAt;
    PartsOf(items);
    if items == [] {
      ItemsStart(s, i, j, items);
      out, more := [], [];
      assert args + out == args && rs + more == rs;
      ArgsEnd(s, i, args, rs);
      NoFiles(s, items);
      NoWords(s);
    } else {
      var w, rest := items[0].word, items[1..];
      var e := FirstArg(s, i, j, items);
      var rs1, m, n := RedirsOf(s, e, j, rest);
      Prefixed(rest, n);
      PartsOf(rest[n..]);
      ArgsStep(s, i, args, rs, e, w, rs1, m);
      var sp := Span(i, i + |w|);
      var out1, more1 := ArgsOf(s, m, j, rest[n..], args + [sp], rs + rs1);
      out, more := [sp] + out1, rs1 + more1;
      assert args + [sp] + out1 == args + out && rs + rs1 + more1 == rs + more;
      FilesJoin(s, rs1, rest[..n], more1, Files(rest[n..]));
      WordsCons(s, sp, out1, w, Words(rest[n..]));
    }
  }

  lemma NoWords(s: Line)
    ensures WordsMatch(s, [], [])
  {
  }

  lemma WordsCons(s: Line, sp: Span, args: seq<Span>, w: string, ws: seq<string>)
    requires WordsMatch(s, args, ws) && Text(s, sp) == w
    ensures WordsMatch(s, [sp] + args, [w] + ws)
  {
    hide Text;
  }

  lemma PartsOf(items: seq<Item>)
    ensures items == [] ==> Words(items) == [] && Files(items) == []
    ensures items != [] && items[0].Arg? ==>
              Words(items) == [items[0].word] + Words(items[1..]) && Files(items) == Files(items[1..])
  {
    if items != [] && items[0].Arg? { assert [] + Files(items[1..]) == Files(items[1..]); }
  }

  lemma FilesJoin(s: Line, rs: seq<Redirection>, fs: seq<Item>, rs': seq<Redirection>, fs': seq<Item>)
    requires FilesMatch(s, rs, fs) && FilesMatch(s, rs', fs')
    ensures FilesMatch(s, rs + rs', fs + fs')
  {
    hide Text;
  }

  lemma ArgsEnd(s: Line, i: nat, args: seq<Span>, rs: seq<Redirection>)
    requires i <= |s| && !IsSpace(At(s, i)) && Stops(s, i)
    ensures Args(s, i, args, rs) == Ok(Wrap(Exec(args), rs), i)
  {
    hide Wrap, Redirs;
    Looks(s, i);
  }

  /** Redirections only, and the end. */
  lemma FilesOnly(s: Line, i: nat, j: nat, files: seq<Item>) returns (rs: seq<Redirection>)
    requires i <= |s| && !IsSpace(At(s, i)) && ItemsAt(s, i, j, files) && Stops(s, j)
    requires forall k | 0 <= k < |files| :: files[k].To?
    ensures Redirs(s, i) == Ok(rs, j) && FilesMatch(s, rs, files)
  {
    hide Redirs, FilesMatch, Stops, IsSpace;
    var m, n;
    rs, m, n := RedirsOf(s, i, j, files);
    assert files[..n] == files;
  }

  lemma {:induction false} BacksOf(s: Line, i: nat, j: nat, n: nat, c: Cmd) returns (r: Cmd)
    requires i <= |s| && !IsSpace(At(s, i)) && AmpsAt(s, i, j, n) && Stops(s, j) && At(s, j) != '&'
    ensures Backs(s, i, c) == Ok(r, j) && Spell(s, r) == Behind(Spell(s, c), n)
    decreases n
  {
    hide GetToken, Peek, SkipSpace, IsSpace;
    Looks(s, i);
    if n == 0 {
      r := c;
    } else {
      var m: nat :| SymAt(s, i, m, "&") && AmpsAt(s, m, j, n - 1);
      SymIsToken(s, i, m, "&");
      r := BacksOf(s, m, j, n - 1, Back(c));
      BehindMore(Spell(s, c), n - 1);
    }
  }

  lemma {:induction false} BehindMore(t: Tree, n: nat)
    ensures Behind(TBack(t), n) == TBack(Behind(t, n))
  {
    if n > 0 { BehindMore(t, n - 1); }
  }

  /** Where a number of `&` ends, there is no space. */
  lemma {:induction false} AmpsEnd(s: Line, i: nat, j: nat, n: nat)
    requires i <= |s| && !IsSpace(At(s, i)) && AmpsAt(s, i, j, n)
    ensures j <= |s| && !IsSpace(At(s, j)) && (n > 0 ==> At(s, i) == '&') && (n == 0 ==> i == j)
    decreases n
  {
    hide GetToken, IsSpace;
    if n > 0 {
      var m: nat :| SymAt(s, i, m, "&") && AmpsAt(s, m, j, n - 1);
      SymIsToken(s, i, m, "&");
      AmpsEnd(s, m, j, n - 1);
    }
  }

  lemma {:induction false} ElemOf(s: Line, i: nat, j: nat, e: Elem) returns (c: Cmd)
    requires i <= |s| && !IsSpace(At(s, i)) && ElemAt(s, i, j, e) && Stops(s, j) && Allowed(e)
    ensures ParseExec(s, i) == Ok(c, j) && Spell(s, c) == ElemTree(e)
    decreases e, 0
  {
    hide GetToken, Peek, SkipSpace, IsSpace, Word, Text, IsWord, Redirs, Args, Wrap, Spell, ParseLine;
    Looks(s, i);
    match e
    case Simple(items) =>
      c := SimpleOf(s, i, j, items);
    case Group(line, files) =>
      var a: nat, b: nat, d: nat :|
        SymAt(s, i, a, "(") && JobsAt(s, a, b, line) && SymAt(s, b, d, ")") && ItemsAt(s, d, j, files);
      SymIsToken(s, i, a, "(");
      SymIsToken(s, b, d, ")");
      var c1 := JobsOf(s, a, b, line);
      var rs := FilesOnly(s, d, j, files);
      Looks(s, b);
      c := Wrap(c1, rs);
      assert ParseBlock(s, i) == Ok(c, j);
      WrapSpells(s, c1, rs, files);
  }

  lemma SimpleOf(s: Line, i: nat, j: nat, items: seq<Item>) returns (c: Cmd)
    requires i <= |s| && !IsSpace(At(s, i)) && ItemsAt(s, i, j, items) && Stops(s, j) && |Words(items)| < MAXARGS
    ensures ParseExec(s, i) == Ok(c, j) && Spell(s, c) == Around(TExec(Words(items)), Files(items))
  {
    hide GetToken, Peek, SkipSpace, IsSpace, Word, Text, Redirs, Args, Wrap, Spell, ParseLine, ParseBlock, IsWord,
      FilesMatch, WordsMatch, Words, Files, ParseExec;
    var rs, m, n := RedirsOf(s, i, j, items);
    Prefixed(items, n);
    var out, more := ArgsOf(s, m, j, items[n..], [], rs);
    assert [] + out == out;
    c := Wrap(Exec(out), rs + more);
    FilesJoin(s, rs, items[..n], more, Files(items[n..]));
    ExecSpells(s, out, Words(items));
    WrapSpells(s, Exec(out), rs + more, Files(items));
    NotGroup(s, i, j, items);
    ExecIsArgs(s, i);
  }

  lemma NotGroup(s: Line, i: nat, j: nat, items: seq<Item>)
    requires i <= |s| && ItemsAt(s, i, j, items) && Stops(s, j)
    ensures At(s, i) != '('
  {
    hide IsSpace;
    SymbolsAreNotSpace();
    ItemsStart(s, i, j, items);
  }

  lemma ExecIsArgs(s: Line, i: nat)
    requires i <= |s| && !IsSpace(At(s, i)) && At(s, i) != '(' && Redirs(s, i).Ok?
    ensures ParseExec(s, i) == Args(s, Redirs(s, i).pos, [], Redirs(s, i).value)
  {
    hide Redirs, Args;
    Looks(s, i);
  }

  lemma {:induction false} PipeOf(s: Line, i: nat, j: nat, p: Pipeline) returns (c: Cmd)
    requires i <= |s| && !IsSpace(At(s, i)) && PipeAt(s, i, j, p) && AllowedPipe(p)
    requires Stops(s, j) && At(s, j) != '|' && !IsSpace(At(s, j))
    ensures ParsePipe(s, i) == Ok(c, j) && Spell(s, c) == PipeTree(p)
    decreases p, 0
  {
    hide GetToken, Peek, SkipSpace, IsSpace, ParseExec, IsWord, ElemAt, Allowed, ElemTree;
    match p
    case One(e) =>
      c := ElemOf(s, i, j, e);
      Looks(s, j);
    case Bar(e, more) =>
      var a: nat, b: nat :| ElemAt(s, i, a, e) && SymAt(s, a, b, "|") && PipeAt(s, b, j, more);
      SymIsToken(s, a, b, "|");
      Looks(s, a);
      var c1 := ElemOf(s, i, a, e);
      var c2 := PipeOf(s, b, j, more);
      c := Pipe(c1, c2);
  }

  /** parsepipe and the `&` loop. */
  lemma {:induction false} JobOf(s: Line, i: nat, j: nat, p: Pipeline, n: nat, a: nat) returns (c: Cmd)
    requires i <= |s| && !IsSpace(At(s, i)) && PipeAt(s, i, a, p) && AmpsAt(s, a, j, n) && AllowedPipe(p)
    requires Stops(s, j) && At(s, j) != '|' && At(s, j) != '&'
    ensures var first := ParsePipe(s, i);
            first.Ok? && Backs(s, first.pos, first.value) == Ok(c, j) && !IsSpace(At(s, j))
    ensures Spell(s, c) == Behind(PipeTree(p), n)
    decreases p, 1
  {
    hide GetToken, Peek, SkipSpace, IsSpace, ParsePipe, IsWord, Spell, Backs;
    PipeThere(s, i, a, p);
    AmpsEnd(s, a, j, n);
    var c1 := PipeOf(s, i, a, p);
    c := BacksOf(s, a, j, n, c1);
  }

  /** parseline gives the tree of what is typed. */
  lemma {:induction false} JobsOf(s: Line, i: nat, j: nat, x: Jobs) returns (c: Cmd)
    requires i <= |s| && !IsSpace(At(s, i)) && JobsAt(s, i, j, x) && Ends(s, j) && j <= |s| && AllowedJobs(x)
    ensures ParseLine(s, i) == Ok(c, j) && Spell(s, c) == JobsTree(x)
    decreases x, 0
  {
    hide GetToken, Peek, SkipSpace, IsSpace, ParsePipe, IsWord, Backs, PipeAt, AmpsAt;
    match x
    case Last(p, n) =>
      var a: nat :| PipeAt(s, i, a, p) && AmpsAt(s, a, j, n);
      c := JobOf(s, i, j, p, n, a);
      Looks(s, j);
    case Then(p, n, more) =>
      var a: nat, b: nat, d: nat :|
        PipeAt(s, i, a, p) && AmpsAt(s, a, b, n) && SymAt(s, b, d, ";") && JobsAt(s, d, j, more);
      SymIsToken(s, b, d, ";");
      Looks(s, b);
      var c1 := JobOf(s, i, b, p, n, a);
      var c2 := JobsOf(s, d, j, more);
      c := List(c1, c2);
  }

  /** Where a pipeline ends, there is no space. */
  lemma {:induction false} PipeThere(s: Line, i: nat, j: nat, p: Pipeline)
    requires i <= |s| && !IsSpace(At(s, i)) && PipeAt(s, i, j, p)
    ensures j <= |s| && !IsSpace(At(s, j))
    decreases p
  {
    hide GetToken, IsSpace;
    match p
    case One(e) => ElemThere(s, i, j, e);
    case Bar(e, more) =>
      var a: nat, b: nat :| ElemAt(s, i, a, e) && SymAt(s, a, b, "|") && PipeAt(s, b, j, more);
      SymIsToken(s, a, b, "|");
      PipeThere(s, b, j, more);
  }

  lemma ElemThere(s: Line, i: nat, j: nat, e: Elem)
    requires i <= |s| && !IsSpace(At(s, i)) && ElemAt(s, i, j, e)
    ensures j <= |s| && !IsSpace(At(s, j))
  {
    hide GetToken, IsSpace;
    match e
    case Simple(items) => ItemsThere(s, i, j, items);
    case Group(line, files) =>
      var a: nat, b: nat, d: nat :|
        SymAt(s, i, a, "(") && JobsAt(s, a, b, line) && SymAt(s, b, d, ")") && ItemsAt(s, d, j, files);
      SymIsToken(s, b, d, ")");
      ItemsThere(s, d, j, files);
  }

  lemma {:induction false} ItemsThere(s: Line, i: nat, j: nat, items: seq<Item>)
    requires i <= |s| && !IsSpace(At(s, i)) && ItemsAt(s, i, j, items)
    ensures j <= |s| && !IsSpace(At(s, j))
    decreases |items|
  {
    hide GetToken, IsSpace, Word, Text;
    if items != [] {
      var m: nat :| ItemAt(s, i, m, items[0]) && ItemsAt(s, m, j, items[1..]);
      match items[0] {
        case Arg(w) => WordIsToken(s, i, m, w);
        case To(how, f) =>
          var a: nat :| SymAt(s, i, a, Sign(how)) && WordAt(s, a, m, f);
          WordIsToken(s, a, m, f);
      }
      ItemsThere(s, m, j, items[1..]);
    }
  }

  /** A line that is typed by the grammar parses, to the tree it means. */
  lemma TypedParses(s: Line, x: Jobs)
    requires Typed(s, x) && AllowedJobs(x)
    ensures ParseCmd(s).Ok? && Spell(s, ParseCmd(s).value) == JobsTree(x)
  {
    hide GetToken, Peek, IsSpace, ParsePipe, IsWord, Spell, Backs, ParseLine;
    var i: nat :| Blank(s, 0, i) && JobsAt(s, i, |s|, x);
    BlankSkips(s, 0, i);
    var c := JobsOf(s, i, |s|, x);
    LineSkips(s, 0);
  }

  /** White space in front makes no difference. */
  lemma LineSkips(s: Line, i: nat)
    requires i <= |s|
    ensures ParseLine(s, i) == ParseLine(s, SkipSpace(s, i))
  {
    hide ParseExec;
    ExecSkips(s, i);
    assert ParsePipe(s, i) == ParsePipe(s, SkipSpace(s, i));
  }

  lemma ExecSkips(s: Line, i: nat)
    requires i <= |s|
    ensures ParseExec(s, i) == ParseExec(s, SkipSpace(s, i))
  {
    hide ParseLine, Args;
    var k := SkipSpace(s, i);
    SkipsTwice(s, i);
    hide SkipSpace, GetToken;
    assert Redirs(s, i) == Redirs(s, k);
    assert ParseBlock(s, i) == ParseBlock(s, k);
  }

  lemma SkipsTwice(s: Line, i: nat)
    requires i <= |s|
    ensures SkipSpace(s, SkipSpace(s, i)) == SkipSpace(s, i) && GetToken(s, i) == GetToken(s, SkipSpace(s, i))
  {
  }

  // ---------------------------------------------------------------- what is parsed was typed

  lemma {:induction false} ItemsJoin(s: Line, i: nat, m: nat, j: nat, a: seq<Item>, b: seq<Item>)
    requires ItemsAt(s, i, m, a) && ItemsAt(s, m, j, b)
    ensures ItemsAt(s, i, j, a + b)
    decreases |a|
  {
    hide ItemAt;
    if a == [] {
      assert a + b == b;
    } else {
      var e: nat :| ItemAt(s, i, e, a[0]) && ItemsAt(s, e, m, a[1..]);
      ItemsJoin(s, e, m, j, a[1..], b);
      assert (a + b)[0] == a[0] && (a + b)[1..] == a[1..] + b;
    }
  }

  /** A redirection at i, and what follows it. */
  lemma RedirThere(s: Line, i: nat) returns (how: How, f: string, a: nat, e: nat)
    requires i <= |s| && !IsSpace(At(s, i)) && Peek(s, i, "<>") && Redirs(s, i).Ok?
    ensures SymAt(s, i, a, Sign(how)) && WordAt(s, a, e, f) && i < e <= |s| && !IsSpace(At(s, e)) && Redirs(s, e).Ok?
    ensures var rd := Redirection(Span(a, a + |f|), !how.Input?);
            && Redirs(s, i) == Ok([rd] + Redirs(s, e).value, Redirs(s, e).pos)
            && Text(s, rd.file) == f
  {
    hide GetToken, SkipSpace, IsSpace, Word, Text, IsWord, SymAt, WordAt;
    Looks(s, i);
    TokenIsThere(s, i);
    var t := GetToken(s, i);
    a := t.pos;
    how := if t.kind == '<' then Input else if t.kind == '+' then Append else Output;
    SignThere(s, i, how);
    TokenIsThere(s, a);
    f := Text(s, GetToken(s, a).span);
    e := GetToken(s, a).pos;
    SameText(s, GetToken(s, a).span);
    RedirsStep(s, i, a, e, how, f);
  }

  lemma SignThere(s: Line, i: nat, how: How)
    requires i < |s| && !IsSpace(At(s, i)) && (s[i] == '<' || s[i] == '>')
    requires var k := GetToken(s, i).kind; how == if k == '<' then Input else if k == '+' then Append else Output
    ensures GetToken(s, i).kind != NUL && GetToken(s, i).kind != 'a' && SymAt(s, i, GetToken(s, i).pos, Sign(how))
  {
    TokenIsThere(s, i);
  }

  lemma SameText(s: Line, sp: Span)
    requires sp.q <= sp.eq <= |s|
    ensures |Text(s, sp)| == sp.eq - sp.q
  {
  }

  /** What parseredirs returns was typed. */
  lemma {:induction false} RedirsSound(s: Line, i: nat) returns (files: seq<Item>)
    requires i <= |s| && !IsSpace(At(s, i)) && Redirs(s, i).Ok?
    ensures var r := Redirs(s, i);
            ItemsAt(s, i, r.pos, files) && FilesMatch(s, r.value, files) && !IsSpace(At(s, r.pos))
    ensures forall k | 0 <= k < |files| :: files[k].To?
    decreases |s| - i
  {
    hide GetToken, Peek, SkipSpace, IsSpace, Word, Text, IsWord, SymAt, WordAt, FilesMatch, Redirs;
    if Peek(s, i, "<>") {
      var how, f, a, e := RedirThere(s, i);
      var rest := RedirsSound(s, e);
      files := [To(how, f)] + rest;
      assert files[1..] == rest && rest[..|rest|] == rest && files[..|rest| + 1] == files;
      assert ItemAt(s, i, e, files[0]);
      FilesCons(s, Redirection(Span(a, a + |f|), !how.Input?), Redirs(s, e).value, files, |rest|);
    } else {
      files := [];
      NoRedirsThere(s, i);
      NoFiles(s, []);
      assert files[..0] == [];
    }
  }

  lemma NoRedirsThere(s: Line, i: nat)
    requires i <= |s| && !IsSpace(At(s, i)) && !Peek(s, i, "<>")
    ensures Redirs(s, i) == Ok([], i)
  {
  }

  /** One argument at i with the redirections behind it. */
  lemma ArgThere(s: Line, i: nat, args: seq<Span>, rs: seq<Redirection>)
    returns (w: string, e: nat, m: nat, files: seq<Item>)
    requires i <= |s| && !IsSpace(At(s, i)) && Args(s, i, args, rs).Ok? && !Peek(s, i, "|)&;") && i < |s|
    ensures WordAt(s, i, e, w) && |args| + 1 < MAXARGS && i < e <= m <= |s| && !IsSpace(At(s, m))
    ensures Redirs(s, e).Ok? && Redirs(s, e).pos == m && FilesMatch(s, Redirs(s, e).value, files)
    ensures ItemsAt(s, e, m, files) && forall k | 0 <= k < |files| :: files[k].To?
    ensures Args(s, i, args, rs) == Args(s, m, args + [Span(i, i + |w|)], rs + Redirs(s, e).value)
    ensures Text(s, Span(i, i + |w|)) == w
  {
    hide GetToken, Peek, SkipSpace, IsSpace, Word, Text, IsWord, SymAt, WordAt, FilesMatch, Redirs, Wrap;
    TokenIsThere(s, i);
    var t := GetToken(s, i);
    assert t.kind == 'a';
    w, e := Text(s, t.span), t.pos;
    SameText(s, t.span);
    files := RedirsSound(s, e);
    m := Redirs(s, e).pos;
    WordIsToken(s, i, e, w);
    ArgsStep(s, i, args, rs, e, w, Redirs(s, e).value, m);
  }

  /** An argument, redirections, and the rest. */
  lemma PartsJoin(s: Line, i: nat, e: nat, m: nat, j: nat, w: string, files: seq<Item>, rest: seq<Item>)
    requires WordAt(s, i, e, w) && ItemsAt(s, e, m, files) && ItemsAt(s, m, j, rest)
    requires forall k | 0 <= k < |files| :: files[k].To?
    ensures var items := [Arg(w)] + (files + rest);
            ItemsAt(s, i, j, items) && Words(items) == [w] + Words(rest) && Files(items) == files + Files(rest)
  {
    hide WordAt, Words, Files;
    var items := [Arg(w)] + (files + rest);
    ItemsJoin(s, e, m, j, files, rest);
    assert items[1..] == files + rest && (files + rest)[|files|..] == rest && (files + rest)[..|files|] == files;
    assert ItemAt(s, i, e, items[0]);
    PartsOf(items);
    Prefixed(files + rest, |files|);
  }

  /** What the loop of parseexec returns was typed. */
  lemma {:induction false} ArgsSound(s: Line, i: nat, args: seq<Span>, rs: seq<Redirection>)
    returns (items: seq<Item>, out: seq<Span>, more: seq<Redirection>)
    requires i <= |s| && !IsSpace(At(s, i)) && Args(s, i, args, rs).Ok? && |args| < MAXARGS
    ensures var r := Args(s, i, args, rs);
            ItemsAt(s, i, r.pos, items) && !IsSpace(At(s, r.pos)) && r.value == Wrap(Exec(args + out), rs + more)
    ensures WordsMatch(s, out, Words(items)) && FilesMatch(s, more, Files(items))
    ensures |args| + |Words(items)| < MAXARGS
    decreases |s| - i
  {
    hide GetToken, Peek, SkipSpace, IsSpace, Word, Text, IsWord, Redirs, Wrap, Args, WordAt, FilesMatch, WordsMatch,
      Words, Files, ItemsAt;
    if Peek(s, i, "|)&;") || i == |s| {
      items, out, more := [], [], [];
      assert args + out == args && rs + more == rs && items[..0] == [];
      ArgsEndThere(s, i, args, rs);
      NoItems(s, i);
      NoFiles(s, items);
      NoWords(s);
      PartsOf(items);
    } else {
      var w, e, m, files := ArgThere(s, i, args, rs);
      var sp, rs1 := Span(i, i + |w|), Redirs(s, e).value;
      var rest, out1, more1 := ArgsSound(s, m, args + [sp], rs + rs1);
      items, out, more := [Arg(w)] + (files + rest), [sp] + out1, rs1 + more1;
      PartsJoin(s, i, e, m, Args(s, i, args, rs).pos, w, files, rest);
      assert args + [sp] + out1 == args + out && rs + rs1 + more1 == rs + more;
      FilesJoin(s, rs1, files, more1, Files(rest));
      WordsCons(s, sp, out1, w, Words(rest));
    }
  }

  lemma NoItems(s: Line, i: nat)
    ensures ItemsAt(s, i, i, [])
  {
  }

  lemma ArgsEndThere(s: Line, i: nat, args: seq<Span>, rs: seq<Redirection>)
    requires i <= |s| && !IsSpace(At(s, i)) && (Peek(s, i, "|)&;") || i == |s|)
    ensures Args(s, i, args, rs) == Ok(Wrap(Exec(args), rs), i)
  {
    hide Wrap, Redirs;
  }

  lemma {:induction false} BacksSound(s: Line, i: nat, c: Cmd) returns (n: nat)
    requires i <= |s| && !IsSpace(At(s, i))
    ensures var r := Backs(s, i, c);
            AmpsAt(s, i, r.pos, n) && !IsSpace(At(s, r.pos)) && Spell(s, r.value) == Behind(Spell(s, c), n)
    decreases |s| - i
  {
    hide GetToken, SkipSpace, IsSpace, SymAt;
    Looks(s, i);
    if Peek(s, i, "&") {
      TokenIsThere(s, i);
      TokenProgress(s, i);
      SymThere(s, i, '&');
      var m := GetToken(s, i).pos;
      n := BacksSound(s, m, Back(c));
      BehindMore(Spell(s, c), n);
      n := n + 1;
      assert SymAt(s, i, m, "&");
    } else {
      n := 0;
    }
  }

  /** A symbol that peek has seen. */
  lemma SymThere(s: Line, i: nat, x: char)
    requires i <= |s| && At(s, i) == x && x in "()|&;"
    ensures SymAt(s, i, GetToken(s, i).pos, [x]) && i < GetToken(s, i).pos <= |s| && !IsSpace(At(s, GetToken(s, i).pos))
  {
    SymbolsAreNotSpace();
    TokenIsThere(s, i);
  }

  lemma {:induction false} ElemSound(s: Line, i: nat) returns (e: Elem)
    requires i <= |s| && !IsSpace(At(s, i)) && ParseExec(s, i).Ok?
    ensures var r := ParseExec(s, i);
            ElemAt(s, i, r.pos, e) && Allowed(e) && !IsSpace(At(s, r.pos)) && Spell(s, r.value) == ElemTree(e)
    decreases |s| - i, 1
  {
    hide GetToken, Peek, SkipSpace, IsSpace, Spell, Redirs, Args, ParseLine;
    Looks(s, i);
    if At(s, i) == '(' { e := GroupSound(s, i); } else { e := SimpleSound(s, i); }
  }

  lemma SimpleSound(s: Line, i: nat) returns (e: Elem)
    requires i <= |s| && !IsSpace(At(s, i)) && ParseExec(s, i).Ok? && At(s, i) != '('
    ensures var r := ParseExec(s, i);
            ElemAt(s, i, r.pos, e) && Allowed(e) && !IsSpace(At(s, r.pos)) && Spell(s, r.value) == ElemTree(e)
  {
    hide GetToken, Peek, SkipSpace, IsSpace, Spell, Redirs, Args, ParseLine, Words, Files, FilesMatch, WordsMatch, Wrap,
      Around, ParseBlock;
    Looks(s, i);
    var rs := Redirs(s, i);
    assert rs.Ok?;
    ExecIsArgs(s, i);
    var files := RedirsSound(s, i);
    var rest, out, more := ArgsSound(s, rs.pos, [], rs.value);
    assert [] + out == out;
    ItemsJoin(s, i, rs.pos, ParseExec(s, i).pos, files, rest);
    var items := files + rest;
    assert items[|files|..] == rest && items[..|files|] == files;
    Prefixed(items, |files|);
    FilesJoin(s, rs.value, files, more, Files(rest));
    ExecSpells(s, out, Words(items));
    WrapSpells(s, Exec(out), rs.value + more, Files(items));
    e := Simple(items);
  }

  lemma {:induction false} GroupSound(s: Line, i: nat) returns (e: Elem)
    requires i <= |s| && ParseExec(s, i).Ok? && At(s, i) == '('
    ensures var r := ParseExec(s, i);
            ElemAt(s, i, r.pos, e) && Allowed(e) && !IsSpace(At(s, r.pos)) && Spell(s, r.value) == ElemTree(e)
    decreases |s| - i, 0
  {
    hide GetToken, Peek, SkipSpace, IsSpace, Spell, Redirs, Args, ParseLine, FilesMatch, Wrap, Around, SymAt;
    SymbolsAreNotSpace();
    Looks(s, i);
    SymThere(s, i, '(');
    var a := GetToken(s, i).pos;
    var inner := ParseLine(s, a);
    var line := JobsSound(s, a);
    var b := inner.pos;
    Looks(s, b);
    SymThere(s, b, ')');
    var d := GetToken(s, b).pos;
    var files := RedirsSound(s, d);
    e := Group(line, files);
    WrapSpells(s, inner.value, Redirs(s, d).value, files);
    assert SymAt(s, i, a, "(") && SymAt(s, b, d, ")");
  }

  lemma {:induction false} PipeSound(s: Line, i: nat) returns (p: Pipeline)
    requires i <= |s| && !IsSpace(At(s, i)) && ParsePipe(s, i).Ok?
    ensures var r := ParsePipe(s, i);
            PipeAt(s, i, r.pos, p) && AllowedPipe(p) && !IsSpace(At(s, r.pos)) && Spell(s, r.value) == PipeTree(p)
    decreases |s| - i, 2
  {
    hide GetToken, Peek, SkipSpace, IsSpace, ParseExec, ElemAt, Allowed, ElemTree, SymAt;
    var left := ParseExec(s, i);
    var e := ElemSound(s, i);
    Looks(s, left.pos);
    if At(s, left.pos) == '|' {
      SymThere(s, left.pos, '|');
      var b := GetToken(s, left.pos).pos;
      var more := PipeSound(s, b);
      p := Bar(e, more);
      assert SymAt(s, left.pos, b, "|");
    } else {
      p := One(e);
    }
  }

  /** What parseline returns was typed. */
  lemma {:induction false} JobsSound(s: Line, i: nat) returns (x: Jobs)
    requires i <= |s| && !IsSpace(At(s, i)) && ParseLine(s, i).Ok?
    ensures var r := ParseLine(s, i);
            JobsAt(s, i, r.pos, x) && AllowedJobs(x) && !IsSpace(At(s, r.pos)) && Spell(s, r.value) == JobsTree(x)
    decreases |s| - i, 3
  {
    hide GetToken, Peek, SkipSpace, IsSpace, ParsePipe, PipeAt, AllowedPipe, PipeTree, SymAt, AmpsAt, Backs, Behind;
    var first := ParsePipe(s, i);
    var p := PipeSound(s, i);
    var n := BacksSound(s, first.pos, first.value);
    var c := Backs(s, first.pos, first.value);
    Looks(s, c.pos);
    if At(s, c.pos) == ';' {
      SymThere(s, c.pos, ';');
      var d := GetToken(s, c.pos).pos;
      var more := JobsSound(s, d);
      x := Then(p, n, more);
      assert SymAt(s, c.pos, d, ";");
    } else {
      x := Last(p, n);
    }
  }

  lemma ParsedIsTyped(s: Line) returns (x: Jobs)
    requires ParseCmd(s).Ok?
    ensures Typed(s, x) && AllowedJobs(x)
  {
    hide GetToken, Peek, IsSpace, ParseLine, Spell;
    var i := SkipSpace(s, 0);
    SkipIsBlank(s, 0);
    LineSkips(s, 0);
    x := JobsSound(s, i);
    SkipIsBlank(s, ParseLine(s, i).pos);
    assert SkipSpace(s, ParseLine(s, i).pos) == ParseLine(s, i).pos;
  }

  /** The parser against the grammar, in both directions: it accepts exactly the lines that can be typed by the
      grammar, with any spacing, and builds the tree such a line means. */
  lemma ParsesIffTyped(s: Line)
    ensures ParseCmd(s).Ok? <==> exists x :: Typed(s, x) && AllowedJobs(x)
    ensures forall x | Typed(s, x) && AllowedJobs(x) :: Spell(s, ParseCmd(s).value) == JobsTree(x)
  {
    hide ParseCmd, Spell, Typed, AllowedJobs, JobsTree;
    forall x | Typed(s, x) && AllowedJobs(x) ensures ParseCmd(s).Ok? && Spell(s, ParseCmd(s).value) == JobsTree(x) {
      TypedParses(s, x);
    }
    if ParseCmd(s).Ok? { var x := ParsedIsTyped(s); }
  }
}
