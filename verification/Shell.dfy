/** sh.c's parser: a recursive-descent parser over the command line, whose tree refers to the line by
    token positions, and nulterminate, which cuts the tokens out in place. */
module Shell {
  import opened Common

  const MAXARGS := 10
  const WHITESPACE := " \t\r\n" + [11 as char]
  const SYMBOLS := "<|>&;()"

  /** A command line: a C string without its terminator. */
  type Line = s: seq<char> | NUL !in s witness []

  predicate IsSpace(c: char) { c in WHITESPACE }
  predicate IsWord(c: char) { c != NUL && c !in WHITESPACE && c !in SYMBOLS }

  function At(s: Line, i: nat): (c: char)
    ensures c == NUL <==> i >= |s|
  {
    if i < |s| then s[i] else NUL
  }

  /** A token as the tree keeps it: first position and the position after its last character. */
  datatype Span = Span(q: nat, eq: nat)

  datatype Redirection = Redirection(file: Span, output: bool)   // O_RDONLY on 0, or O_WRONLY|O_CREATE on 1

  datatype Cmd =
    | Exec(args: seq<Span>)
    | Redir(cmd: Cmd, how: Redirection)
    | Pipe(left: Cmd, right: Cmd)
    | List(left: Cmd, right: Cmd)
    | Back(cmd: Cmd)

  datatype Parse<T> = Ok(value: T, pos: nat) | Panic(message: string)

  // ---------------------------------------------------------------- tokens

  function SkipSpace(s: Line, i: nat): (r: nat)
    requires i <= |s|
    ensures i <= r <= |s| && !IsSpace(At(s, r))
    ensures !IsSpace(At(s, i)) ==> r == i
    decreases |s| - i
  {
    if i < |s| && IsSpace(s[i]) then SkipSpace(s, i + 1) else i
  }

  function WordEnd(s: Line, i: nat): (r: nat)
    requires i <= |s|
    ensures i <= r <= |s| && !IsWord(At(s, r))
    ensures forall k | i <= k < r :: IsWord(s[k])
    decreases |s| - i
  {
    if i < |s| && IsWord(s[i]) then WordEnd(s, i + 1) else i
  }

  datatype Token = Token(kind: char, span: Span, pos: nat)

  /** gettoken: NUL at the end, the symbol itself, '+' for >>, or 'a' for a word. */
  function GetToken(s: Line, i: nat): (t: Token)
    requires i <= |s|
    ensures i <= t.span.q <= t.span.eq <= t.pos <= |s|
    ensures t.kind != NUL ==> t.pos > i
    ensures t.kind == NUL ==> t.pos == |s|
    ensures t.kind == 'a' ==> GoodSpan(s, t.span)
  {
    var q := SkipSpace(s, i);
    var c := At(s, q);
    if c == NUL then Token(NUL, Span(q, q), q)
    else if c in "|();&<" then Token(c, Span(q, q + 1), SkipSpace(s, q + 1))
    else if c == '>' then
      if At(s, q + 1) == '>' then Token('+', Span(q, q + 2), SkipSpace(s, q + 2))
      else Token('>', Span(q, q + 1), SkipSpace(s, q + 1))
    else
      var e := WordEnd(s, q);
      Token('a', Span(q, e), SkipSpace(s, e))
  }

  /** A non-empty run of word characters that ends where the word ends. */
  predicate GoodSpan(s: Line, sp: Span) {
    && sp.q < sp.eq <= |s|
    && (forall k | sp.q <= k < sp.eq :: IsWord(s[k]))
    && !IsWord(At(s, sp.eq))
  }

  /** peek, and where it leaves the cursor. */
  predicate Peek(s: Line, i: nat, toks: string)
    requires i <= |s|
  {
    var c := At(s, SkipSpace(s, i)); c != NUL && c in toks
  }

  // ---------------------------------------------------------------- the grammar

  function Wrap(c: Cmd, rs: seq<Redirection>): (r: Cmd)
    decreases |rs|
  {
    if rs == [] then c else Redir(Wrap(c, rs[..|rs| - 1]), rs[|rs| - 1])
  }

  /** parseredirs: the redirections at i. */
  function Redirs(s: Line, i: nat): (r: Parse<seq<Redirection>>)
    requires i <= |s|
    ensures r.Ok? ==> i <= r.pos <= |s| && forall k | 0 <= k < |r.value| :: GoodSpan(s, r.value[k].file)
    decreases |s| - i
  {
    if !Peek(s, i, "<>") then Ok([], SkipSpace(s, i))
    else
      var t := GetToken(s, i);
      var f := GetToken(s, t.pos);
      if f.kind != 'a' then Panic("missing file for redirection")
      else
        var rest := Redirs(s, f.pos);
        if rest.Panic? then rest else Ok([Redirection(f.span, t.kind != '<')] + rest.value, rest.pos)
  }

  /** The loop of parseexec, with what it has collected so far. */
  function Args(s: Line, i: nat, args: seq<Span>, rs: seq<Redirection>): (r: Parse<Cmd>)
    requires i <= |s|
    ensures r.Ok? ==> i <= r.pos <= |s|
    decreases |s| - i
  {
    if Peek(s, i, "|)&;") then Ok(Wrap(Exec(args), rs), SkipSpace(s, i))
    else
      var t := GetToken(s, i);
      if t.kind == NUL then Ok(Wrap(Exec(args), rs), t.pos)
      else if t.kind != 'a' then Panic("syntax")
      else if |args| + 1 >= MAXARGS then Panic("too many args")
      else
        var more := Redirs(s, t.pos);
        if more.Panic? then Panic(more.message) else Args(s, more.pos, args + [t.span], rs + more.value)
  }

  function ParseExec(s: Line, i: nat): (r: Parse<Cmd>)
    requires i <= |s|
    ensures r.Ok? ==> i <= r.pos <= |s|
    decreases |s| - i, 1
  {
    if Peek(s, i, "(") then ParseBlock(s, i)
    else
      var rs := Redirs(s, i);
      if rs.Panic? then Panic(rs.message) else Args(s, rs.pos, [], rs.value)
  }

  function ParseBlock(s: Line, i: nat): (r: Parse<Cmd>)
    requires i <= |s|
    ensures r.Ok? ==> i <= r.pos <= |s|
    decreases |s| - i, 0
  {
    if !Peek(s, i, "(") then Panic("parseblock")
    else
      var inner := ParseLine(s, GetToken(s, i).pos);
      if inner.Panic? then inner
      else if !Peek(s, inner.pos, ")") then Panic("syntax - missing )")
      else
        var rs := Redirs(s, GetToken(s, inner.pos).pos);
        if rs.Panic? then Panic(rs.message) else Ok(Wrap(inner.value, rs.value), rs.pos)
  }

  function ParsePipe(s: Line, i: nat): (r: Parse<Cmd>)
    requires i <= |s|
    ensures r.Ok? ==> i <= r.pos <= |s|
    decreases |s| - i, 2
  {
    var left := ParseExec(s, i);
    if left.Panic? then left
    else if Peek(s, left.pos, "|") then
      var right := ParsePipe(s, GetToken(s, left.pos).pos);
      if right.Panic? then right else Ok(Pipe(left.value, right.value), right.pos)
    else Ok(left.value, SkipSpace(s, left.pos))
  }

  /** The `&` loop of parseline. */
  function Backs(s: Line, i: nat, c: Cmd): (r: Parse<Cmd>)
    requires i <= |s|
    ensures r.Ok? && i <= r.pos <= |s|
    decreases |s| - i
  {
    if Peek(s, i, "&") then Backs(s, GetToken(s, i).pos, Back(c)) else Ok(c, SkipSpace(s, i))
  }

  function ParseLine(s: Line, i: nat): (r: Parse<Cmd>)
    requires i <= |s|
    ensures r.Ok? ==> i <= r.pos <= |s|
    decreases |s| - i, 3
  {
    var first := ParsePipe(s, i);
    if first.Panic? then first
    else
      var c := Backs(s, first.pos, first.value);
      if Peek(s, c.pos, ";") then
        var rest := ParseLine(s, GetToken(s, c.pos).pos);
        if rest.Panic? then rest else Ok(List(c.value, rest.value), rest.pos)
      else c
  }

  /** parsecmd before nulterminate. */
  function ParseCmd(s: Line): (r: Parse<Cmd>) {
    var c := ParseLine(s, 0);
    if c.Ok? && SkipSpace(s, c.pos) != |s| then Panic("syntax") else c
  }

  // ---------------------------------------------------------------- every token in the tree is a word

  ghost predicate GoodCmd(s: Line, c: Cmd)
    decreases c
  {
    match c
    case Exec(args) => |args| < MAXARGS && forall k | 0 <= k < |args| :: GoodSpan(s, args[k])
    case Redir(d, how) => GoodCmd(s, d) && GoodSpan(s, how.file)
    case Pipe(l, r) => GoodCmd(s, l) && GoodCmd(s, r)
    case List(l, r) => GoodCmd(s, l) && GoodCmd(s, r)
    case Back(d) => GoodCmd(s, d)
  }

  ghost predicate GoodFiles(s: Line, rs: seq<Redirection>) {
    forall k | 0 <= k < |rs| :: GoodSpan(s, rs[k].file)
  }

  lemma {:induction false} WrapGood(s: Line, c: Cmd, rs: seq<Redirection>)
    requires GoodCmd(s, c) && GoodFiles(s, rs)
    ensures GoodCmd(s, Wrap(c, rs))
    decreases |rs|
  {
    if rs != [] { WrapGood(s, c, rs[..|rs| - 1]); }
  }

  lemma {:induction false} ArgsGood(s: Line, i: nat, args: seq<Span>, rs: seq<Redirection>)
    requires i <= |s| && GoodCmd(s, Exec(args)) && GoodFiles(s, rs)
    ensures Args(s, i, args, rs).Ok? ==> GoodCmd(s, Args(s, i, args, rs).value)
    decreases |s| - i
  {
    WrapGood(s, Exec(args), rs);
    if !Peek(s, i, "|)&;") {
      var t := GetToken(s, i);
      if t.kind == 'a' && |args| + 1 < MAXARGS {
        var more := Redirs(s, t.pos);
        if more.Ok? { ArgsGood(s, more.pos, args + [t.span], rs + more.value); }
      }
    }
  }

  lemma {:induction false} ExecGood(s: Line, i: nat)
    requires i <= |s|
    ensures ParseExec(s, i).Ok? ==> GoodCmd(s, ParseExec(s, i).value)
    decreases |s| - i, 1
  {
    if Peek(s, i, "(") {
      BlockGood(s, i);
    } else if Redirs(s, i).Ok? {
      ArgsGood(s, Redirs(s, i).pos, [], Redirs(s, i).value);
    }
  }

  lemma {:induction false} BlockGood(s: Line, i: nat)
    requires i <= |s|
    ensures ParseBlock(s, i).Ok? ==> GoodCmd(s, ParseBlock(s, i).value)
    decreases |s| - i, 0
  {
    if ParseBlock(s, i).Ok? {
      var inner := ParseLine(s, GetToken(s, i).pos);
      LineGood(s, GetToken(s, i).pos);
      WrapGood(s, inner.value, Redirs(s, GetToken(s, inner.pos).pos).value);
    }
  }

  lemma {:induction false} PipeGood(s: Line, i: nat)
    requires i <= |s|
    ensures ParsePipe(s, i).Ok? ==> GoodCmd(s, ParsePipe(s, i).value)
    decreases |s| - i, 2
  {
    var left := ParseExec(s, i);
    ExecGood(s, i);
    if left.Ok? && Peek(s, left.pos, "|") { PipeGood(s, GetToken(s, left.pos).pos); }
  }

  lemma {:induction false} BacksGood(s: Line, i: nat, c: Cmd)
    requires i <= |s| && GoodCmd(s, c)
    ensures GoodCmd(s, Backs(s, i, c).value)
    decreases |s| - i
  {
    if Peek(s, i, "&") { BacksGood(s, GetToken(s, i).pos, Back(c)); }
  }

  lemma {:induction false} LineGood(s: Line, i: nat)
    requires i <= |s|
    ensures ParseLine(s, i).Ok? ==> GoodCmd(s, ParseLine(s, i).value)
    decreases |s| - i, 3
  {
    var first := ParsePipe(s, i);
    PipeGood(s, i);
    if first.Ok? {
      BacksGood(s, first.pos, first.value);
      var c := Backs(s, first.pos, first.value);
      if Peek(s, c.pos, ";") { LineGood(s, GetToken(s, c.pos).pos); }
    }
  }

  // ---------------------------------------------------------------- printing and the round trip

  /** A command with its words spelled out. */
  datatype Tree =
    | TExec(words: seq<string>)
    | TRedir(tree: Tree, file: string, output: bool)
    | TPipe(tl: Tree, tr: Tree)
    | TList(tl: Tree, tr: Tree)
    | TBack(tree: Tree)

  predicate Word(w: string) {
    w != [] && forall k | 0 <= k < |w| :: IsWord(w[k])
  }

  /** Trees with well-formed words and at most MAXARGS-1 arguments per command. */
  predicate WellFormed(t: Tree) {
    match t
    case TExec(ws) => |ws| < MAXARGS && forall k | 0 <= k < |ws| :: Word(ws[k])
    case TRedir(d, f, _) => WellFormed(d) && Word(f)
    case TPipe(l, r) => WellFormed(l) && WellFormed(r)
    case TList(l, r) => WellFormed(l) && WellFormed(r)
    case TBack(d) => WellFormed(d)
  }

  function PrintWords(ws: seq<string>): (r: string) {
    if ws == [] then "" else ws[0] + " " + PrintWords(ws[1..])
  }

  function Block(t: Tree): (r: string)
    decreases t, 1
  {
    "(" + Print(t) + ")"
  }

  /** The canonical parenthesised print. */
  function Print(t: Tree): (r: string)
    decreases t, 0
  {
    match t
    case TExec(ws) => PrintWords(ws)
    case TRedir(d, f, out) => Block(d) + (if out then ">" else "<") + f + " "
    case TPipe(l, r) => Block(l) + "|" + Block(r)
    case TList(l, r) => Block(l) + ";" + Block(r)
    case TBack(d) => Block(d) + "&"
  }

  function Text(s: Line, sp: Span): (r: string) {
    if sp.q <= sp.eq <= |s| then s[sp.q..sp.eq] else ""
  }

  /** The tree with every token replaced by its text. */
  function Spell(s: Line, c: Cmd): (t: Tree) {
    match c
    case Exec(args) => TExec(seq(|args|, k requires 0 <= k < |args| => Text(s, args[k])))
    case Redir(d, how) => TRedir(Spell(s, d), Text(s, how.file), how.output)
    case Pipe(l, r) => TPipe(Spell(s, l), Spell(s, r))
    case List(l, r) => TList(Spell(s, l), Spell(s, r))
    case Back(d) => TBack(Spell(s, d))
  }

  predicate Occurs(s: Line, i: nat, w: string) {
    i + |w| <= |s| && s[i..i + |w|] == w
  }

  lemma OccursSplit(s: Line, i: nat, a: string, b: string)
    requires Occurs(s, i, a + b)
    ensures Occurs(s, i, a) && Occurs(s, i + |a|, b)
  {
    assert s[i..i + |a|] == s[i..i + |a + b|][..|a|] == (a + b)[..|a|] == a;
    assert s[i + |a|..i + |a| + |b|] == s[i..i + |a + b|][|a|..] == (a + b)[|a|..] == b;
  }

  lemma {:induction false} WordEndAt(s: Line, i: nat, e: nat)
    requires i <= e <= |s| && (forall k | i <= k < e :: IsWord(s[k])) && !IsWord(At(s, e))
    ensures WordEnd(s, i) == e
    decreases e - i
  {
    if i < e { WordEndAt(s, i + 1, e); }
  }

  /** A word followed by a space and something that is not one. */
  lemma WordToken(s: Line, i: nat, w: string)
    requires Word(w) && Occurs(s, i, w + " ") && !IsSpace(At(s, i + |w| + 1))
    ensures GetToken(s, i) == Token('a', Span(i, i + |w|), i + |w| + 1) && Text(s, Span(i, i + |w|)) == w
    ensures IsWord(At(s, i))
  {
    OccursSplit(s, i, w, " ");
    assert s[i + |w|] == s[i + |w|..i + |w| + 1][0] == ' ';
    forall k | i <= k < i + |w| ensures s[k] == w[k - i] { assert s[i..i + |w|][k - i] == w[k - i]; }
    WordEndAt(s, i, i + |w|);
    assert SkipSpace(s, i + |w|) == i + |w| + 1;
  }

  /** What peek sees where there is no space. */
  lemma Looks(s: Line, i: nat)
    requires i <= |s| && !IsSpace(At(s, i))
    ensures SkipSpace(s, i) == i
    ensures var x := At(s, i);
            && (Peek(s, i, "(") <==> x == '(') && (Peek(s, i, ")") <==> x == ')')
            && (Peek(s, i, "|") <==> x == '|') && (Peek(s, i, "&") <==> x == '&') && (Peek(s, i, ";") <==> x == ';')
            && (Peek(s, i, "<>") <==> x == '<' || x == '>')
            && (Peek(s, i, "|)&;") <==> x == '|' || x == ')' || x == '&' || x == ';')
  {
  }

  /** A symbol followed by something that is not a space. */
  lemma SymbolToken(s: Line, i: nat)
    requires i < |s| && !IsSpace(At(s, i + 1))
    requires var x := s[i]; x == '|' || x == '(' || x == ')' || x == ';' || x == '&' || x == '<'
                            || (x == '>' && At(s, i + 1) != '>')
    ensures GetToken(s, i) == Token(s[i], Span(i, i + 1), i + 1) && !IsSpace(At(s, i))
  {
    assert !IsSpace(s[i]);
    assert SkipSpace(s, i) == i;
    assert s[i] in "|();&<" || s[i] == '>';
  }

  lemma SymbolsAreNotSpace()
    ensures !IsSpace('(') && !IsSpace(')') && !IsSpace('|') && !IsSpace(';') && !IsSpace('&') && !IsSpace('<')
            && !IsSpace('>') && !IsSpace(NUL)
    ensures forall x | IsWord(x) :: !IsSpace(x) && x !in "()|;&<>"
  {
  }

  /** The character after a printed command: a closing parenthesis or the end of the line. */
  predicate Ends(s: Line, j: nat) {
    At(s, j) == ')' || j == |s|
  }

  /** No redirections here. */
  lemma NoRedirs(s: Line, i: nat)
    requires i <= |s| && !IsSpace(At(s, i)) && At(s, i) != '<' && At(s, i) != '>'
    ensures Redirs(s, i) == Ok([], i)
  {
    hide Peek, SkipSpace, IsSpace, GetToken;
    Looks(s, i);
  }

  lemma WordsStart(s: Line, i: nat, ws: seq<string>)
    requires Occurs(s, i, PrintWords(ws)) && Ends(s, i + |PrintWords(ws)|) && forall k | 0 <= k < |ws| :: Word(ws[k])
    ensures ws != [] ==> IsWord(At(s, i))
    ensures ws == [] ==> Ends(s, i)
    ensures !IsSpace(At(s, i)) && At(s, i) != '<' && At(s, i) != '>'
  {
    if ws != [] {
      assert s[i..i + |PrintWords(ws)|][0] == s[i];
      assert PrintWords(ws)[0] == ws[0][0];
    }
  }

  lemma {:induction false} ArgsParse(s: Line, i: nat, ws: seq<string>, args: seq<Span>) returns (out: seq<Span>)
    requires Occurs(s, i, PrintWords(ws)) && Ends(s, i + |PrintWords(ws)|)
    requires |args| + |ws| < MAXARGS && forall k | 0 <= k < |ws| :: Word(ws[k])
    ensures Args(s, i, args, []) == Ok(Exec(args + out), i + |PrintWords(ws)|)
    ensures |out| == |ws| && forall k | 0 <= k < |ws| :: Text(s, out[k]) == ws[k]
    decreases |ws|
  {
    hide Peek, SkipSpace, IsSpace, GetToken, Redirs, IsWord, Text, Word, Occurs, Args, Ends;
    WordsStart(s, i, ws);
    Looks(s, i);
    if ws == [] {
      out := [];
      assert args + out == args;
      ArgsStop(s, i, args);
    } else {
      var w := ws[0];
      assert PrintWords(ws) == (w + " ") + PrintWords(ws[1..]);
      OccursSplit(s, i, w + " ", PrintWords(ws[1..]));
      var i' := i + |w| + 1;
      WordsStart(s, i', ws[1..]);
      WordToken(s, i, w);
      NoRedirs(s, i');
      var sp := Span(i, i + |w|);
      ArgsStep(s, i, args, sp, i');
      var rest := ArgsParse(s, i', ws[1..], args + [sp]);
      out := [sp] + rest;
      assert args + [sp] + rest == args + out;
      forall k | 0 <= k < |ws| ensures Text(s, out[k]) == ws[k] {
        if k > 0 { assert out[k] == rest[k - 1] && ws[k] == ws[1..][k - 1]; }
      }
    }
  }

  lemma ArgsStop(s: Line, i: nat, args: seq<Span>)
    requires i <= |s| && Ends(s, i)
    ensures Args(s, i, args, []) == Ok(Exec(args), i)
  {
    SymbolsAreNotSpace();
    Looks(s, i);
    assert Wrap(Exec(args), []) == Exec(args);
  }

  lemma ArgsStep(s: Line, i: nat, args: seq<Span>, sp: Span, i': nat)
    requires i <= |s| && IsWord(At(s, i)) && GetToken(s, i) == Token('a', sp, i') && |args| + 1 < MAXARGS
    requires i' <= |s| && Redirs(s, i') == Ok([], i')
    ensures Args(s, i, args, []) == Args(s, i', args + [sp], [])
  {
    SymbolsAreNotSpace();
    Looks(s, i);
    hide Peek, SkipSpace, IsSpace, GetToken, Redirs, IsWord;
    var none: seq<Redirection> := [];
    assert none + none == none;
  }

  lemma PrintStart(s: Line, i: nat, t: Tree)
    requires Occurs(s, i, Print(t)) && Ends(s, i + |Print(t)|) && WellFormed(t)
    ensures t.TExec? ==> IsWord(At(s, i)) || Ends(s, i)
    ensures !t.TExec? ==> At(s, i) == '('
    ensures !IsSpace(At(s, i))
  {
    if t.TExec? {
      WordsStart(s, i, t.words);
    } else {
      assert Print(t)[0] == '(';
      assert s[i..i + |Print(t)|][0] == s[i];
    }
  }

  /** A parenthesised command, up to its closing parenthesis. */
  lemma BlockOpens(s: Line, i: nat, t: Tree, c: Cmd)
    requires Occurs(s, i, Block(t)) && WellFormed(t)
    requires ParseLine(s, i + 1) == Ok(c, i + 1 + |Print(t)|)
    requires !IsSpace(At(s, i + |Block(t)|))
    ensures At(s, i) == '(' && Peek(s, i, "(")
    ensures var rs := Redirs(s, i + |Block(t)|);
            ParseBlock(s, i) == if rs.Panic? then Panic(rs.message) else Ok(Wrap(c, rs.value), rs.pos)
  {
    hide Peek, SkipSpace, IsSpace, GetToken, Redirs, IsWord, Print, Block, ParseLine, Occurs, WellFormed, Wrap;
    BlockParts(s, i, t);
    PrintStart(s, i + 1, t);
    var j := i + 1 + |Print(t)|;
    SymbolsAreNotSpace();
    SymbolToken(s, i);
    SymbolToken(s, j);
    Looks(s, i);
    Looks(s, j);
  }

  lemma BlockParts(s: Line, i: nat, t: Tree)
    requires Occurs(s, i, Block(t))
    ensures At(s, i) == '(' && Occurs(s, i + 1, Print(t)) && At(s, i + 1 + |Print(t)|) == ')'
    ensures i + 1 + |Print(t)| < |s| && |Block(t)| == |Print(t)| + 2
  {
    hide Print, Occurs;
    var p := Print(t);
    assert Block(t) == "" + "(" + (p + ")");
    SplitThree(s, i, "", "(", p + ")");
    assert p + ")" == p + ")" + "";
    SplitThree(s, i + 1, p, ")", "");
  }

  /** A block followed by something that is neither space nor redirection is a whole command. */
  lemma BlockAlone(s: Line, i: nat, t: Tree, c: Cmd)
    requires Occurs(s, i, Block(t)) && WellFormed(t)
    requires ParseLine(s, i + 1) == Ok(c, i + 1 + |Print(t)|)
    requires var x := At(s, i + |Block(t)|); !IsSpace(x) && x != '<' && x != '>'
    ensures ParseExec(s, i) == Ok(c, i + |Block(t)|)
  {
    hide Peek, SkipSpace, IsSpace, GetToken, Redirs, IsWord, Print, Block, ParseLine, ParseBlock, Occurs, WellFormed;
    BlockParts(s, i, t);
    BlockOpens(s, i, t, c);
    NoRedirs(s, i + |Block(t)|);
    assert Wrap(c, []) == c;
  }

  /** A line is what its first pipe is, if no `&` or `;` follows. */
  lemma LineIsPipe(s: Line, i: nat, c: Cmd, j: nat)
    requires i <= |s| && j <= |s| && ParsePipe(s, i) == Ok(c, j) && Ends(s, j)
    ensures ParseLine(s, i) == Ok(c, j)
  {
    SymbolsAreNotSpace();
    Looks(s, j);
    hide Peek, SkipSpace, IsSpace, GetToken, IsWord, ParsePipe;
    assert Backs(s, j, c) == Ok(c, j);
  }

  /** A block at the end is a whole line. */
  lemma BlockLine(s: Line, i: nat, t: Tree, c: Cmd)
    requires Occurs(s, i, Block(t)) && WellFormed(t) && Ends(s, i + |Block(t)|)
    requires ParseLine(s, i + 1) == Ok(c, i + 1 + |Print(t)|)
    ensures ParsePipe(s, i) == Ok(c, i + |Block(t)|)
    ensures ParseLine(s, i) == Ok(c, i + |Block(t)|)
  {
    hide Peek, SkipSpace, IsSpace, GetToken, IsWord, Print, Block, ParseLine, ParseExec, Occurs, WellFormed;
    var j := i + |Block(t)|;
    BlockParts(s, i, t);
    SymbolsAreNotSpace();
    Looks(s, j);
    BlockAlone(s, i, t, c);
    LineIsPipe(s, i, c, j);
  }

  /** Where the parts of a printed two-command tree are. */
  lemma PairParts(s: Line, i: nat, l: Tree, x: string, r: Tree)
    requires |x| == 1 && Occurs(s, i, Block(l) + x + Block(r))
    ensures var m := i + |Block(l)| + 1;
            && m < |s| && s[m - 1] == x[0] && s[m] == '(' && |Block(l)| == |Print(l)| + 2
            && |Block(r)| == |Print(r)| + 2
            && Occurs(s, i, Block(l)) && Occurs(s, m, Block(r))
            && Occurs(s, i + 1, Print(l)) && At(s, i + 1 + |Print(l)|) == ')'
            && Occurs(s, m + 1, Print(r)) && At(s, m + 1 + |Print(r)|) == ')'
  {
    hide Print, Block, Occurs;
    SplitThree(s, i, Block(l), x, Block(r));
    BlockParts(s, i, l);
    BlockParts(s, i + |Block(l)| + 1, r);
  }

  /** Where the parts of a printed tree with a suffix are. */
  lemma SuffixParts(s: Line, i: nat, d: Tree, x: string, b: string)
    requires |x| == 1 && Occurs(s, i, Block(d) + x + b)
    ensures var m := i + |Block(d)| + 1;
            && m <= |s| && s[m - 1] == x[0] && |Block(d)| == |Print(d)| + 2 && Occurs(s, m, b)
            && Occurs(s, i, Block(d)) && Occurs(s, i + 1, Print(d)) && At(s, i + 1 + |Print(d)|) == ')'
  {
    hide Print, Block;
    SplitThree(s, i, Block(d), x, b);
    BlockParts(s, i, d);
  }

  lemma PipeParses(s: Line, i: nat, lt: Tree, rt: Tree, l: Cmd, r: Cmd)
    requires WellFormed(lt) && WellFormed(rt) && Occurs(s, i, Block(lt) + "|" + Block(rt))
    requires Ends(s, i + |Block(lt)| + 1 + |Block(rt)|)
    requires ParseLine(s, i + 1) == Ok(l, i + 1 + |Print(lt)|)
    requires var m := i + |Block(lt)| + 1; m < |s| && ParseLine(s, m + 1) == Ok(r, m + 1 + |Print(rt)|)
    ensures ParseLine(s, i) == Ok(Pipe(l, r), i + |Block(lt)| + 1 + |Block(rt)|)
  {
    hide Peek, SkipSpace, IsSpace, GetToken, IsWord, Print, Block, ParseLine, ParseExec, Occurs, WellFormed;
    var m := i + |Block(lt)| + 1;
    PairParts(s, i, lt, "|", rt);
    SymbolsAreNotSpace();
    Looks(s, m - 1);
    SymbolToken(s, m - 1);
    BlockAlone(s, i, lt, l);
    BlockLine(s, m, rt, r);
    LineIsPipe(s, i, Pipe(l, r), m + |Block(rt)|);
  }

  lemma ListParses(s: Line, i: nat, lt: Tree, rt: Tree, l: Cmd, r: Cmd)
    requires WellFormed(lt) && WellFormed(rt) && Occurs(s, i, Block(lt) + ";" + Block(rt))
    requires Ends(s, i + |Block(lt)| + 1 + |Block(rt)|)
    requires ParseLine(s, i + 1) == Ok(l, i + 1 + |Print(lt)|)
    requires var m := i + |Block(lt)| + 1; m < |s| && ParseLine(s, m + 1) == Ok(r, m + 1 + |Print(rt)|)
    ensures ParseLine(s, i) == Ok(List(l, r), i + |Block(lt)| + 1 + |Block(rt)|)
  {
    hide Peek, SkipSpace, IsSpace, GetToken, IsWord, Print, Block, ParseExec, Occurs, WellFormed;
    var m := i + |Block(lt)| + 1;
    PairParts(s, i, lt, ";", rt);
    BlockLine(s, m, rt, r);
    SymbolsAreNotSpace();
    Looks(s, m - 1);
    SymbolToken(s, m - 1);
    BlockAlone(s, i, lt, l);
    assert ParsePipe(s, i) == Ok(l, m - 1);
    assert Backs(s, m - 1, l) == Ok(l, m - 1);
  }

  lemma BackParses(s: Line, i: nat, d: Tree, c: Cmd)
    requires WellFormed(d) && Occurs(s, i, Block(d) + "&" + "") && Ends(s, i + |Block(d)| + 1)
    requires ParseLine(s, i + 1) == Ok(c, i + 1 + |Print(d)|)
    ensures ParseLine(s, i) == Ok(Back(c), i + |Block(d)| + 1)
  {
    hide Peek, SkipSpace, IsSpace, GetToken, IsWord, Print, Block, ParseExec, Occurs, WellFormed;
    var m := i + |Block(d)|;
    SuffixParts(s, i, d, "&", "");
    SymbolsAreNotSpace();
    Looks(s, m);
    Looks(s, m + 1);
    SymbolToken(s, m);
    BlockAlone(s, i, d, c);
    assert ParsePipe(s, i) == Ok(c, m);
    assert Backs(s, m + 1, Back(c)) == Ok(Back(c), m + 1);
    assert Backs(s, m, c) == Ok(Back(c), m + 1);
  }

  lemma RedirParses(s: Line, i: nat, d: Tree, file: string, output: bool, c: Cmd)
    requires WellFormed(d) && Word(file) && Occurs(s, i, Block(d) + (if output then ">" else "<") + (file + " "))
    requires Ends(s, i + |Block(d)| + 2 + |file|)
    requires ParseLine(s, i + 1) == Ok(c, i + 1 + |Print(d)|)
    ensures var m := i + |Block(d)| + 1;
            && ParseLine(s, i) == Ok(Redir(c, Redirection(Span(m, m + |file|), output)), m + |file| + 1)
            && Text(s, Span(m, m + |file|)) == file
  {
    hide Peek, SkipSpace, IsSpace, GetToken, IsWord, Print, Block, ParseLine, ParseBlock, Occurs, Word, Redirs, Wrap,
      WellFormed, Text;
    var m := i + |Block(d)| + 1;
    SuffixParts(s, i, d, if output then ">" else "<", file + " ");
    SymbolsAreNotSpace();
    var e := m + |file| + 1;
    BlockOpens(s, i, d, c);
    RedirOne(s, m - 1, file, output);
    var rd := Redirection(Span(m, m + |file|), output);
    WrapOne(c, rd);
    Looks(s, i);
    assert ParseExec(s, i) == Ok(Redir(c, rd), e);
    Looks(s, e);
    assert ParsePipe(s, i) == Ok(Redir(c, rd), e);
    LineIsPipe(s, i, Redir(c, rd), e);
  }

  lemma WrapOne(c: Cmd, rd: Redirection)
    ensures Wrap(c, [rd]) == Redir(c, rd)
  {
    assert [rd][..0] == [];
    assert Wrap(c, []) == c;
  }

  /** One redirection and the end. */
  lemma RedirOne(s: Line, i: nat, file: string, output: bool)
    requires i < |s| && s[i] == (if output then '>' else '<') && Word(file) && Occurs(s, i + 1, file + " ")
             && Ends(s, i + 2 + |file|)
    ensures Redirs(s, i) == Ok([Redirection(Span(i + 1, i + 1 + |file|), output)], i + 2 + |file|)
    ensures Text(s, Span(i + 1, i + 1 + |file|)) == file
  {
    hide Peek, SkipSpace, IsSpace, GetToken, IsWord, Word, Text;
    SymbolsAreNotSpace();
    WordToken(s, i + 1, file);
    assert At(s, i + 1) != '>';
    SymbolToken(s, i);
    Looks(s, i);
    NoRedirs(s, i + 2 + |file|);
    var rd := Redirection(Span(i + 1, i + 1 + |file|), output);
    assert [rd] + [] == [rd];
  }

  lemma SplitThree(s: Line, i: nat, a: string, x: string, b: string)
    requires |x| == 1 && Occurs(s, i, a + x + b)
    ensures Occurs(s, i, a) && At(s, i + |a|) == x[0] && i + |a| < |s| && Occurs(s, i + |a| + 1, b)
  {
    OccursSplit(s, i, a + x, b);
    OccursSplit(s, i, a, x);
    var j := i + |a|;
    assert s[j] == s[j..j + 1][0];
  }

  /** Print with the concatenations grouped as the parser meets them. */
  lemma PrintShape(t: Tree)
    ensures t.TRedir? ==> Print(t) == Block(t.tree) + (if t.output then ">" else "<") + (t.file + " ")
    ensures t.TBack? ==> Print(t) == Block(t.tree) + "&" + ""
    ensures t.TPipe? ==> Print(t) == Block(t.tl) + "|" + Block(t.tr)
    ensures t.TList? ==> Print(t) == Block(t.tl) + ";" + Block(t.tr)
  {
    hide Block;
  }

  lemma ExecParses(s: Line, i: nat, ws: seq<string>) returns (c: Cmd)
    requires |ws| < MAXARGS && (forall k | 0 <= k < |ws| :: Word(ws[k]))
    requires Occurs(s, i, PrintWords(ws)) && Ends(s, i + |PrintWords(ws)|)
    ensures ParseLine(s, i) == Ok(c, i + |PrintWords(ws)|) && Spell(s, c) == TExec(ws)
  {
    hide Peek, SkipSpace, IsSpace, GetToken, IsWord, PrintWords, Redirs, Args, Text, Occurs, Word;
    var j := i + |PrintWords(ws)|;
    SymbolsAreNotSpace();
    WordsStart(s, i, ws);
    NoRedirs(s, i);
    Looks(s, i);
    Looks(s, j);
    var out := ArgsParse(s, i, ws, []);
    assert [] + out == out;
    c := Exec(out);
    assert ParseExec(s, i) == Ok(c, j);
    assert ParsePipe(s, i) == Ok(c, j);
    LineIsPipe(s, i, c, j);
    assert Spell(s, c).words == ws;
  }

  lemma {:induction false} PrintParses(s: Line, i: nat, t: Tree) returns (c: Cmd)
    requires WellFormed(t) && Occurs(s, i, Print(t)) && Ends(s, i + |Print(t)|)
    ensures ParseLine(s, i) == Ok(c, i + |Print(t)|) && Spell(s, c) == t
    decreases t
  {
    hide Block, ParseLine, Occurs, Word, Text, Ends;
    PrintShape(t);
    match t
    case TExec(ws) =>
      c := ExecParses(s, i, ws);
    case TRedir(d, f, o) =>
      SuffixParts(s, i, d, if o then ">" else "<", f + " ");
      CloseEnds(s, i + 1 + |Print(d)|);
      var c' := PrintParses(s, i + 1, d);
      RedirParses(s, i, d, f, o, c');
      var m := i + |Block(d)| + 1;
      c := Redir(c', Redirection(Span(m, m + |f|), o));
    case TBack(d) =>
      SuffixParts(s, i, d, "&", "");
      CloseEnds(s, i + 1 + |Print(d)|);
      var c' := PrintParses(s, i + 1, d);
      BackParses(s, i, d, c');
      c := Back(c');
    case TPipe(l, r) =>
      PairParts(s, i, l, "|", r);
      CloseEnds(s, i + 1 + |Print(l)|);
      CloseEnds(s, i + |Block(l)| + 2 + |Print(r)|);
      var c1 := PrintParses(s, i + 1, l);
      var c2 := PrintParses(s, i + |Block(l)| + 2, r);
      PipeParses(s, i, l, r, c1, c2);
      c := Pipe(c1, c2);
    case TList(l, r) =>
      PairParts(s, i, l, ";", r);
      CloseEnds(s, i + 1 + |Print(l)|);
      CloseEnds(s, i + |Block(l)| + 2 + |Print(r)|);
      var c1 := PrintParses(s, i + 1, l);
      var c2 := PrintParses(s, i + |Block(l)| + 2, r);
      ListParses(s, i, l, r, c1, c2);
      c := List(c1, c2);
  }

  lemma CloseEnds(s: Line, j: nat)
    requires At(s, j) == ')'
    ensures Ends(s, j)
  {
  }

  lemma {:induction false} PrintWordsClean(ws: seq<string>)
    requires forall k | 0 <= k < |ws| :: Word(ws[k])
    ensures NUL !in PrintWords(ws)
  {
    if ws != [] { PrintWordsClean(ws[1..]); }
  }

  lemma {:induction false} PrintClean(t: Tree)
    requires WellFormed(t)
    ensures NUL !in Print(t)
  {
    match t
    case TExec(ws) => PrintWordsClean(ws);
    case TRedir(d, f, o) => PrintClean(d);
    case TBack(d) => PrintClean(d);
    case TPipe(l, r) => PrintClean(l); PrintClean(r);
    case TList(l, r) => PrintClean(l); PrintClean(r);
  }

  /** Round trip: parsing the canonical print of a well-formed tree gives that tree back. */
  lemma RoundTrip(t: Tree)
    requires WellFormed(t)
    ensures NUL !in Print(t)
    ensures var s: Line := Print(t); ParseCmd(s).Ok? && Spell(s, ParseCmd(s).value) == t
  {
    PrintClean(t);
    var s: Line := Print(t);
    assert Occurs(s, 0, Print(t));
    hide ParseLine, Spell, Print;
    var c := PrintParses(s, 0, t);
    assert SkipSpace(s, |s|) == |s|;
  }

  // ---------------------------------------------------------------- the parser with its loops

  method SkipSpaceImpl(s: Line, i: nat) returns (r: nat)
    requires i <= |s|
    ensures r == SkipSpace(s, i)
  {
    r := i;
    while r < |s| && IsSpace(s[r])
      invariant i <= r <= |s| && SkipSpace(s, i) == SkipSpace(s, r)
    {
      r := r + 1;
    }
  }

  method GetTokenImpl(s: Line, i: nat) returns (t: Token)
    requires i <= |s|
    ensures t == GetToken(s, i)
  {
    var q := SkipSpaceImpl(s, i);
    var c, e := At(s, q), q;
    var kind := c;
    if c != NUL {
      if c in "|();&<" {
        e := q + 1;
      } else if c == '>' {
        e := q + 1;
        if At(s, e) == '>' { kind, e := '+', e + 1; }
      } else {
        kind := 'a';
        while e < |s| && !IsSpace(s[e]) && s[e] !in SYMBOLS
          invariant q <= e <= |s| && WordEnd(s, q) == WordEnd(s, e)
        {
          e := e + 1;
        }
      }
    }
    var p := SkipSpaceImpl(s, e);
    t := Token(kind, Span(q, e), p);
  }

  method RedirsImpl(s: Line, i: nat) returns (r: Parse<seq<Redirection>>)
    requires i <= |s|
    ensures r == Redirs(s, i)
  {
    hide GetToken, Peek, SkipSpace;
    var rs: seq<Redirection> := [];
    var p := i;
    assert Redirs(s, i).Ok? ==> rs + Redirs(s, i).value == Redirs(s, i).value;
    while Peek(s, p, "<>")
      invariant i <= p <= |s|
      invariant Redirs(s, i) == Prepend(rs, Redirs(s, p))
      decreases |s| - p
    {
      var t := GetTokenImpl(s, p);
      TokenProgress(s, p);
      var f := GetTokenImpl(s, t.pos);
      if f.kind != 'a' { return Panic("missing file for redirection"); }
      var rd := Redirection(f.span, t.kind != '<');
      PrependMore(rs, rd, Redirs(s, f.pos));
      rs, p := rs + [rd], f.pos;
    }
    p := SkipSpaceImpl(s, p);
    assert rs + [] == rs;
    r := Ok(rs, p);
  }

  function Prepend(rs: seq<Redirection>, r: Parse<seq<Redirection>>): (q: Parse<seq<Redirection>>) {
    if r.Panic? then r else Ok(rs + r.value, r.pos)
  }

  lemma PrependMore(rs: seq<Redirection>, rd: Redirection, r: Parse<seq<Redirection>>)
    ensures Prepend(rs, Prepend([rd], r)) == Prepend(rs + [rd], r)
  {
    if r.Ok? { assert rs + ([rd] + r.value) == rs + [rd] + r.value; }
  }

  /** Where peek saw a symbol, gettoken takes it. */
  lemma TokenProgress(s: Line, i: nat)
    requires i <= |s|
    ensures forall toks | Peek(s, i, toks) :: GetToken(s, i).pos > i && GetToken(s, i).kind != NUL
  {
  }

  method ArgsImpl(s: Line, i: nat, rs0: seq<Redirection>) returns (r: Parse<Cmd>)
    requires i <= |s|
    ensures r == Args(s, i, [], rs0)
  {
    hide GetToken, Peek, SkipSpace, Redirs;
    var args: seq<Span>, rs, p := [], rs0, i;
    while !Peek(s, p, "|)&;")
      invariant i <= p <= |s|
      invariant Args(s, i, [], rs0) == Args(s, p, args, rs)
      decreases |s| - p
    {
      var t := GetTokenImpl(s, p);
      if t.kind == NUL { return Ok(Wrap(Exec(args), rs), t.pos); }
      if t.kind != 'a' { return Panic("syntax"); }
      if |args| + 1 >= MAXARGS { return Panic("too many args"); }
      var more := RedirsImpl(s, t.pos);
      if more.Panic? { return Panic(more.message); }
      args, rs, p := args + [t.span], rs + more.value, more.pos;
    }
    p := SkipSpaceImpl(s, p);
    r := Ok(Wrap(Exec(args), rs), p);
  }

  method ParseExecImpl(s: Line, i: nat) returns (r: Parse<Cmd>)
    requires i <= |s|
    ensures r == ParseExec(s, i)
    decreases |s| - i, 1
  {
    hide GetToken, Peek, SkipSpace, Redirs, Args;
    if Peek(s, i, "(") {
      r := ParseBlockImpl(s, i);
      return;
    }
    var rs := RedirsImpl(s, i);
    if rs.Panic? { return Panic(rs.message); }
    r := ArgsImpl(s, rs.pos, rs.value);
  }

  method ParseBlockImpl(s: Line, i: nat) returns (r: Parse<Cmd>)
    requires i <= |s|
    ensures r == ParseBlock(s, i)
    decreases |s| - i, 0
  {
    hide GetToken, Peek, SkipSpace, Redirs;
    if !Peek(s, i, "(") { return Panic("parseblock"); }
    TokenProgress(s, i);
    var t := GetTokenImpl(s, i);
    var inner := ParseLineImpl(s, t.pos);
    if inner.Panic? { return inner; }
    if !Peek(s, inner.pos, ")") { return Panic("syntax - missing )"); }
    t := GetTokenImpl(s, inner.pos);
    var rs := RedirsImpl(s, t.pos);
    if rs.Panic? { return Panic(rs.message); }
    r := Ok(Wrap(inner.value, rs.value), rs.pos);
  }

  method ParsePipeImpl(s: Line, i: nat) returns (r: Parse<Cmd>)
    requires i <= |s|
    ensures r == ParsePipe(s, i)
    decreases |s| - i, 2
  {
    hide GetToken, Peek, SkipSpace;
    var left := ParseExecImpl(s, i);
    if left.Panic? { return left; }
    if Peek(s, left.pos, "|") {
      TokenProgress(s, left.pos);
      var t := GetTokenImpl(s, left.pos);
      var right := ParsePipeImpl(s, t.pos);
      if right.Panic? { return right; }
      return Ok(Pipe(left.value, right.value), right.pos);
    }
    var p := SkipSpaceImpl(s, left.pos);
    r := Ok(left.value, p);
  }

  /** parseline, whose termination needs both the remaining text and the grammar level. */
  method ParseLineImpl(s: Line, i: nat) returns (r: Parse<Cmd>)
    requires i <= |s|
    ensures r == ParseLine(s, i)
    decreases |s| - i, 3
  {
    hide GetToken, Peek, SkipSpace, ParsePipe;
    var first := ParsePipeImpl(s, i);
    if first.Panic? { return first; }
    var c, p := first.value, first.pos;
    while Peek(s, p, "&")
      invariant first.pos <= p <= |s|
      invariant Backs(s, first.pos, first.value) == Backs(s, p, c)
      decreases |s| - p
    {
      TokenProgress(s, p);
      var t := GetTokenImpl(s, p);
      c, p := Back(c), t.pos;
    }
    p := SkipSpaceImpl(s, p);
    if Peek(s, p, ";") {
      TokenProgress(s, p);
      var t := GetTokenImpl(s, p);
      var rest := ParseLineImpl(s, t.pos);
      if rest.Panic? { return rest; }
      return Ok(List(c, rest.value), rest.pos);
    }
    r := Ok(c, p);
  }

  // ---------------------------------------------------------------- nulterminate

  /** The positions nulterminate overwrites. */
  ghost function Cuts(c: Cmd): (r: set<nat>) {
    match c
    case Exec(args) => set k | 0 <= k < |args| :: args[k].eq
    case Redir(d, how) => Cuts(d) + {how.file.eq}
    case Pipe(l, r) => Cuts(l) + Cuts(r)
    case List(l, r) => Cuts(l) + Cuts(r)
    case Back(d) => Cuts(d)
  }

  /** All tokens of the tree. */
  ghost function Spans(c: Cmd): (r: set<Span>) {
    match c
    case Exec(args) => set k | 0 <= k < |args| :: args[k]
    case Redir(d, how) => Spans(d) + {how.file}
    case Pipe(l, r) => Spans(l) + Spans(r)
    case List(l, r) => Spans(l) + Spans(r)
    case Back(d) => Spans(d)
  }

  /** The buffer holds the line, with NULs at the cuts and at the end. */
  ghost predicate Cut(s: Line, buf: seq<char>, cuts: set<nat>) {
    |buf| == |s| + 1 && forall k | 0 <= k <= |s| :: buf[k] == if k in cuts then NUL else At(s, k)
  }

  /** nulterminate on the buffer the line was parsed from. */
  method NulTerminate(s: Line, buf: array<char>, c: Cmd, ghost cuts: set<nat>)
    requires GoodCmd(s, c) && Cut(s, buf[..], cuts)
    modifies buf
    ensures Cut(s, buf[..], cuts + Cuts(c))
    decreases c
  {
    match c
    case Exec(args) =>
      for i := 0 to |args|
        invariant Cut(s, buf[..], cuts + set k | 0 <= k < i :: args[k].eq)
      {
        assert GoodSpan(s, args[i]);
        buf[args[i].eq] := NUL;
        assert (set k | 0 <= k < i + 1 :: args[k].eq) == (set k | 0 <= k < i :: args[k].eq) + {args[i].eq};
      }
    case Redir(d, how) =>
      NulTerminate(s, buf, d, cuts);
      buf[how.file.eq] := NUL;
    case Pipe(l, r) =>
      NulTerminate(s, buf, l, cuts);
      NulTerminate(s, buf, r, cuts + Cuts(l));
      assert cuts + Cuts(l) + Cuts(r) == cuts + Cuts(c);
    case List(l, r) =>
      NulTerminate(s, buf, l, cuts);
      NulTerminate(s, buf, r, cuts + Cuts(l));
      assert cuts + Cuts(l) + Cuts(r) == cuts + Cuts(c);
    case Back(d) =>
      NulTerminate(s, buf, d, cuts);
  }

  /** The C string that starts at position q of a buffer. */
  function CString(buf: seq<char>, q: nat): (r: seq<char>)
    requires q <= |buf|
    decreases |buf| - q
  {
    if q == |buf| || buf[q] == NUL then [] else [buf[q]] + CString(buf, q + 1)
  }

  lemma {:induction false} CutsAreNotWords(s: Line, c: Cmd, k: nat)
    requires GoodCmd(s, c) && k in Cuts(c)
    ensures !IsWord(At(s, k))
    decreases c
  {
    match c
    case Exec(args) =>
    case Redir(d, how) => if k in Cuts(d) { CutsAreNotWords(s, d, k); }
    case Pipe(l, r) => if k in Cuts(l) { CutsAreNotWords(s, l, k); } else { CutsAreNotWords(s, r, k); }
    case List(l, r) => if k in Cuts(l) { CutsAreNotWords(s, l, k); } else { CutsAreNotWords(s, r, k); }
    case Back(d) => CutsAreNotWords(s, d, k);
  }

  lemma {:induction false} SpansAreCut(s: Line, c: Cmd, sp: Span)
    requires GoodCmd(s, c) && sp in Spans(c)
    ensures GoodSpan(s, sp) && sp.eq in Cuts(c)
    decreases c
  {
    match c
    case Exec(args) =>
    case Redir(d, how) => if sp in Spans(d) { SpansAreCut(s, d, sp); }
    case Pipe(l, r) => if sp in Spans(l) { SpansAreCut(s, l, sp); } else { SpansAreCut(s, r, sp); }
    case List(l, r) => if sp in Spans(l) { SpansAreCut(s, l, sp); } else { SpansAreCut(s, r, sp); }
    case Back(d) => SpansAreCut(s, d, sp);
  }

  lemma {:induction false} CStringOf(buf: seq<char>, q: nat, e: nat, w: seq<char>)
    requires q <= e < |buf| && buf[e] == NUL && w == buf[q..e] && NUL !in w
    ensures CString(buf, q) == w
    decreases e - q
  {
    if q < e {
      assert w[0] == buf[q] && w[1..] == buf[q + 1..e];
      CStringOf(buf, q + 1, e, w[1..]);
      assert w == [w[0]] + w[1..];
    }
  }

  /** After nulterminate every argument and file name, read as a C string, is its token. */
  lemma TokensReadBack(s: Line, buf: seq<char>, c: Cmd, sp: Span)
    requires GoodCmd(s, c) && Cut(s, buf, Cuts(c)) && sp in Spans(c)
    ensures sp.q <= |buf| && CString(buf, sp.q) == Text(s, sp)
  {
    SpansAreCut(s, c, sp);
    forall k | sp.q <= k < sp.eq ensures buf[k] == s[k] && buf[k] != NUL {
      if k in Cuts(c) { CutsAreNotWords(s, c, k); }
    }
    assert Text(s, sp) == buf[sp.q..sp.eq];
    CStringOf(buf, sp.q, sp.eq, Text(s, sp));
  }

  /** parsecmd: parse, reject leftovers, cut the tokens out of the buffer in place. */
  method ParseCmdImpl(s: Line, buf: array<char>) returns (r: Parse<Cmd>)
    requires Cut(s, buf[..], {})
    modifies buf
    ensures r == ParseCmd(s)
    ensures r.Ok? ==> Cut(s, buf[..], Cuts(r.value))
    ensures r.Ok? ==> forall sp | sp in Spans(r.value) :: sp.q <= buf.Length && CString(buf[..], sp.q) == Text(s, sp)
  {
    hide ParseLine, SkipSpace;
    r := ParseLineImpl(s, 0);
    if r.Ok? {
      var p := SkipSpaceImpl(s, r.pos);
      if p != |s| { return Panic("syntax"); }
      LineGood(s, 0);
      NulTerminate(s, buf, r.value, {});
      assert {} + Cuts(r.value) == Cuts(r.value);
      forall sp | sp in Spans(r.value) ensures sp.q <= buf.Length && CString(buf[..], sp.q) == Text(s, sp) {
        TokensReadBack(s, buf[..], r.value, sp);
      }
    }
  }
}
