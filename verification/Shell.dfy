/** sh: the tokens of a line, the recursive-descent parser, and the NULs it writes behind its words. */
module Shell {
  import opened Basics

  const MAXARGS := 10

  predicate White(c: char) { c in " \t\r\n\U{0B}" }

  predicate Symbol(c: char) { c in "<|>&;()" }

  // ---------------------------------------------------------------- commands

  datatype Mode = In | Out | Append

  /** A command tree over its words: their text, or their places in the line. */
  datatype Cmd<W> = Exec(args: seq<W>) | Redir(cmd: Cmd<W>, file: W, mode: Mode) | Pipe(left: Cmd<W>, right: Cmd<W>)
    | List(left: Cmd<W>, right: Cmd<W>) | Back(cmd: Cmd<W>)

  type Tree = Cmd<string>

  /** Redirections of a plain command: what its arguments can still be added to. */
  predicate Bare<W>(c: Cmd<W>) { c.Exec? || (c.Redir? && Bare(c.cmd)) }

  function Argc<W>(c: Cmd<W>): nat
    requires Bare(c)
  {
    if c.Exec? then |c.args| else Argc(c.cmd)
  }

  /** The argument goes to the plain command under its redirections. */
  function AddArg<W>(c: Cmd<W>, w: W): (r: Cmd<W>)
    requires Bare(c)
    ensures Bare(r) && Argc(r) == Argc(c) + 1
  {
    if c.Exec? then Exec(c.args + [w]) else c.(cmd := AddArg(c.cmd, w))
  }

  // ---------------------------------------------------------------- tokens

  /** A word, or an operator; `+` is `>>`. */
  datatype Token = Word(text: string) | Op(c: char)

  ghost function Skip(s: string, p: nat): (q: nat)
    requires p <= |s|
    ensures p <= q <= |s| && (q < |s| ==> !White(s[q])) && forall k | p <= k < q :: White(s[k])
    decreases |s| - p
  {
    if p < |s| && White(s[p]) then Skip(s, p + 1) else p
  }

  ghost function WordEnd(s: string, p: nat): (q: nat)
    requires p <= |s|
    ensures p <= q <= |s| && (q < |s| ==> White(s[q]) || Symbol(s[q]))
    ensures forall k | p <= k < q :: !White(s[k]) && !Symbol(s[k])
    decreases |s| - p
  {
    if p < |s| && !White(s[p]) && !Symbol(s[p]) then WordEnd(s, p + 1) else p
  }

  /** The tokens of the line from place p on. */
  ghost function Tokens(s: string, p: nat): seq<Token>
    requires p <= |s|
    decreases |s| - p
  {
    var b := Skip(s, p);
    if b == |s| then []
    else if s[b] == '>' && b + 1 < |s| && s[b + 1] == '>' then [Op('+')] + Tokens(s, b + 2)
    else if Symbol(s[b]) then [Op(s[b])] + Tokens(s, b + 1)
    else [Word(s[b..WordEnd(s, b)])] + Tokens(s, WordEnd(s, b))
  }

  /** The next token is an operator that begins with one of the characters. */
  predicate Starts(ts: seq<Token>, toks: string) {
    ts != [] && ts[0].Op? && (ts[0].c in toks || (ts[0].c == '+' && '>' in toks))
  }

  lemma SkipTwice(s: string, p: nat)
    requires p <= |s|
    ensures Skip(s, Skip(s, p)) == Skip(s, p) && Tokens(s, Skip(s, p)) == Tokens(s, p)
  {}

  // ---------------------------------------------------------------- the grammar, on tokens

  datatype Parsed = Done(cmd: Tree, rest: seq<Token>) | Bad

  function ModeOf(c: char): Mode { if c == '<' then In else if c == '>' then Out else Append }

  ghost function Redirs(c: Tree, ts: seq<Token>): (r: Parsed)
    ensures r.Done? ==> |r.rest| <= |ts| && !Starts(r.rest, "<>") && (Bare(c) ==> Bare(r.cmd) && Argc(r.cmd) == Argc(c))
    decreases |ts|
  {
    if !Starts(ts, "<>") then Done(c, ts)
    else if |ts| == 1 || ts[1].Op? then Bad
    else Redirs(Redir(c, ts[1].text, ModeOf(ts[0].c)), ts[2..])
  }

  /** The rest of a plain command, once a word has been taken or at its beginning. */
  ghost function Args(c: Tree, ts: seq<Token>): (r: Parsed)
    requires Bare(c)
    ensures r.Done? ==> |r.rest| <= |ts|
    decreases |ts|
  {
    match Redirs(c, ts)
    case Bad => Bad
    case Done(d, us) =>
      if us == [] || Starts(us, "|)&;") then Done(d, us)
      else if us[0].Op? || Argc(d) + 1 >= MAXARGS then Bad
      else Args(AddArg(d, us[0].text), us[1..])
  }

  ghost function ParseExec(ts: seq<Token>): (r: Parsed)
    ensures r.Done? ==> |r.rest| <= |ts|
    decreases |ts|, 0
  {
    if !Starts(ts, "(") then Args(Exec([]), ts)
    else match ParseLine(ts[1..])
      case Bad => Bad
      case Done(c, us) => if Starts(us, ")") then Redirs(c, us[1..]) else Bad
  }

  ghost function ParsePipe(ts: seq<Token>): (r: Parsed)
    ensures r.Done? ==> |r.rest| <= |ts|
    decreases |ts|, 1
  {
    match ParseExec(ts)
    case Bad => Bad
    case Done(c, us) =>
      if !Starts(us, "|") then Done(c, us)
      else match ParsePipe(us[1..])
        case Bad => Bad
        case Done(d, vs) => Done(Pipe(c, d), vs)
  }

  ghost function Backs(c: Tree, ts: seq<Token>): (r: Parsed)
    ensures r.Done? && |r.rest| <= |ts| && !Starts(r.rest, "&")
    decreases |ts|
  {
    if Starts(ts, "&") then Backs(Back(c), ts[1..]) else Done(c, ts)
  }

  ghost function ParseLine(ts: seq<Token>): (r: Parsed)
    ensures r.Done? ==> |r.rest| <= |ts|
    decreases |ts|, 2
  {
    match ParsePipe(ts)
    case Bad => Bad
    case Done(c, us) =>
      var b := Backs(c, us);
      if !Starts(b.rest, ";") then b
      else match ParseLine(b.rest[1..])
        case Bad => Bad
        case Done(d, vs) => Done(List(b.cmd, d), vs)
  }

  // ---------------------------------------------------------------- every tree can be written

  /** How loosely a tree binds: lists, then `&`, then pipes, then commands. */
  function Level(c: Tree): nat {
    if c.List? then 0 else if c.Back? then 1 else if c.Pipe? then 2 else 3
  }

  function Words(args: seq<string>): (ts: seq<Token>)
    ensures |ts| == |args|
  {
    seq(|args|, i requires 0 <= i < |args| => Word(args[i]))
  }

  function OpOf(m: Mode): Token { if m.In? then Op('<') else if m.Out? then Op('>') else Op('+') }

  /** The tree written down where something that binds at least so tightly is expected. */
  function Render(c: Tree, min: nat): seq<Token>
    requires min <= 3
    decreases c, if Level(c) < min then 1 else 0
  {
    if Level(c) < min then [Op('(')] + Render(c, 0) + [Op(')')]
    else match c
      case Exec(args) => Words(args)
      case Redir(d, file, mode) => Render(d, 3) + [OpOf(mode), Word(file)]
      case Pipe(l, r) => Render(l, 3) + [Op('|')] + Render(r, 2)
      case Back(d) => Render(d, 1) + [Op('&')]
      case List(l, r) => Render(l, 1) + [Op(';')] + Render(r, 0)
  }

  /** No command of the tree has more arguments than the shell takes. */
  predicate Fits(c: Tree) {
    match c
    case Exec(args) => |args| < MAXARGS
    case Redir(d, _, _) => Fits(d)
    case Back(d) => Fits(d)
    case Pipe(l, r) => Fits(l) && Fits(r)
    case List(l, r) => Fits(l) && Fits(r)
  }

  /** What may follow a command. */
  predicate Closes(ts: seq<Token>) { ts == [] || Starts(ts, "|)&;") }

  lemma {:induction false} ArgsAt(args: seq<string>, i: nat, ts: seq<Token>)
    requires i <= |args| < MAXARGS
    ensures Args(Exec(args[..i]), Words(args[i..]) + ts) == Args(Exec(args), ts)
    decreases |args| - i
  {
    if i == |args| {
      assert args[..i] == args && Words(args[i..]) + ts == ts;
    } else {
      var us := Words(args[i..]) + ts;
      assert us[0] == Word(args[i]) && us[1..] == Words(args[i + 1..]) + ts;
      assert AddArg(Exec(args[..i]), args[i]).args == args[..i + 1];
      ArgsAt(args, i + 1, ts);
    }
  }

  lemma RedirAt(c: Tree, ts: seq<Token>)
    requires c.Redir?
    ensures var us := [OpOf(c.mode), Word(c.file)] + ts; Redirs(c.cmd, us) == Redirs(c, ts) && !Starts(us, "(")
  {
    var us := [OpOf(c.mode), Word(c.file)] + ts;
    assert us[2..] == ts;
  }

  lemma BlockAt(c: Tree, body: seq<Token>, ts: seq<Token>)
    requires ParseLine(body + ([Op(')')] + ts)) == Done(c, [Op(')')] + ts)
    ensures ParseExec([Op('(')] + body + [Op(')')] + ts) == Redirs(c, ts)
  {
    var us := [Op(')')] + ts;
    var all := [Op('(')] + body + [Op(')')] + ts;
    assert all[1..] == body + us && us[1..] == ts;
  }

  /** A command written down, with more to come: its redirections and arguments go on. */
  lemma {:induction false} ExecAt(c: Tree, ts: seq<Token>)
    requires Fits(c) && !Starts(ts, "(")
    ensures ParseExec(Render(c, 3) + ts) == if Bare(c) then Args(c, ts) else Redirs(c, ts)
    decreases c, 1, 0
  {
    if c.Exec? {
      assert c.args[..0] == [] && c.args[0..] == c.args;
      ArgsAt(c.args, 0, ts);
    } else if c.Redir? {
      var us := [OpOf(c.mode), Word(c.file)] + ts;
      assert Render(c, 3) + ts == Render(c.cmd, 3) + us;
      RedirAt(c, ts);
      ExecAt(c.cmd, us);
    } else {
      LineAt(c, [Op(')')] + ts);
      BlockAt(c, Render(c, 0), ts);
    }
  }

  lemma {:induction false} PipeAt(c: Tree, ts: seq<Token>)
    requires Fits(c) && Closes(ts) && !Starts(ts, "|")
    ensures ParsePipe(Render(c, 2) + ts) == Done(c, ts)
    decreases c, if c.Pipe? then 0 else 1, 1
  {
    if c.Pipe? {
      var us := [Op('|')] + Render(c.right, 2) + ts;
      assert Render(c, 2) + ts == Render(c.left, 3) + us && us[1..] == Render(c.right, 2) + ts;
      ExecAt(c.left, us);
      ClosedIs(ParseExec(Render(c.left, 3) + us), c.left, us);
      PipeAt(c.right, ts);
      PipeIs(Render(c, 2) + ts, us, c.left, c.right, ts);
    } else {
      assert Render(c, 2) == Render(c, 3);
      ExecAt(c, ts);
      ClosedIs(ParseExec(Render(c, 3) + ts), c, ts);
    }
  }

  /** Nothing more is taken at the end of a command. */
  lemma ClosedIs(p: Parsed, c: Tree, ts: seq<Token>)
    requires Fits(c) && Closes(ts) && p == (if Bare(c) then Args(c, ts) else Redirs(c, ts))
    ensures p == Done(c, ts)
  {}

  lemma PipeIs(all: seq<Token>, us: seq<Token>, l: Tree, r: Tree, ts: seq<Token>)
    requires ParseExec(all) == Done(l, us) && Starts(us, "|") && ParsePipe(us[1..]) == Done(r, ts)
    ensures ParsePipe(all) == Done(Pipe(l, r), ts)
  {}

  lemma {:induction false} BacksAt(c: Tree, ts: seq<Token>)
    requires Fits(c) && Closes(ts) && !Starts(ts, "|")
    ensures var p := ParsePipe(Render(c, 1) + ts); p.Done? && Backs(p.cmd, p.rest) == Backs(c, ts)
    decreases c, if Level(c) == 1 || Level(c) == 2 then 0 else 1, 2
  {
    if c.Back? {
      var us := [Op('&')] + ts;
      assert Render(c, 1) + ts == Render(c.cmd, 1) + us && us[1..] == ts;
      BacksAt(c.cmd, us);
    } else {
      assert Render(c, 1) == Render(c, 2);
      PipeAt(c, ts);
    }
  }

  lemma {:induction false} LineAt(c: Tree, ts: seq<Token>)
    requires Fits(c) && (ts == [] || Starts(ts, ")"))
    ensures ParseLine(Render(c, 0) + ts) == Done(c, ts)
    decreases c, if c.Exec? || c.Redir? then 1 else 0, 3
  {
    if c.List? {
      var us := [Op(';')] + Render(c.right, 0) + ts;
      assert Render(c, 0) + ts == Render(c.left, 1) + us && us[1..] == Render(c.right, 0) + ts;
      BacksAt(c.left, us);
      LineAt(c.right, ts);
    } else {
      assert Render(c, 0) == Render(c, 1);
      BacksAt(c, ts);
    }
  }

  /** The whole of a line is read. */
  ghost predicate Complete(p: Parsed) { p.Done? && p.rest == [] }

  /** `&` does not separate commands: what follows a command and its `&` may be nothing, or `;` and a whole
      line, and nothing else. */
  lemma NoSeparator(c: Tree, ts: seq<Token>)
    requires Fits(c) && !Starts(ts, "&")
    ensures Complete(ParseLine(Render(c, 1) + [Op('&')] + ts)) <==>
      ts == [] || (Starts(ts, ";") && Complete(ParseLine(ts[1..])))
  {
    var us := [Op('&')] + ts;
    assert Render(c, 1) + [Op('&')] + ts == Render(c, 1) + us && us[1..] == ts;
    BacksAt(c, us);
    assert Backs(c, us) == Backs(Back(c), ts) == Done(Back(c), ts);
  }

  // ---------------------------------------------------------------- nothing else is accepted

  ghost function Bag(ts: seq<Token>): multiset<string> {
    if ts == [] then multiset{} else (if ts[0].Word? then multiset{ts[0].text} else multiset{}) + Bag(ts[1..])
  }

  ghost function Leaves(c: Tree): multiset<string> {
    match c
    case Exec(args) => multiset(args)
    case Redir(d, file, _) => Leaves(d) + multiset{file}
    case Back(d) => Leaves(d)
    case Pipe(l, r) => Leaves(l) + Leaves(r)
    case List(l, r) => Leaves(l) + Leaves(r)
  }

  /** What the tree and the tokens left over hold: all words, and no command that is too long. */
  ghost predicate Kept(words: multiset<string>, r: Parsed) {
    r.Done? ==> Leaves(r.cmd) + Bag(r.rest) == words && Fits(r.cmd)
  }

  lemma {:induction false} RedirsKeep(c: Tree, ts: seq<Token>)
    requires Fits(c)
    ensures Kept(Leaves(c) + Bag(ts), Redirs(c, ts))
    decreases |ts|
  {
    if Starts(ts, "<>") && |ts| > 1 && ts[1].Word? {
      assert ts[1..][1..] == ts[2..];
      RedirsKeep(Redir(c, ts[1].text, ModeOf(ts[0].c)), ts[2..]);
    }
  }

  lemma {:induction false} AddArgKeeps(c: Tree, w: string)
    requires Bare(c) && Fits(c) && Argc(c) + 1 < MAXARGS
    ensures Fits(AddArg(c, w)) && Leaves(AddArg(c, w)) == Leaves(c) + multiset{w}
  {
    if c.Redir? {
      AddArgKeeps(c.cmd, w);
    }
  }

  lemma {:induction false} ArgsKeep(c: Tree, ts: seq<Token>)
    requires Bare(c) && Fits(c)
    ensures Kept(Leaves(c) + Bag(ts), Args(c, ts))
    decreases |ts|
  {
    RedirsKeep(c, ts);
    var r := Redirs(c, ts);
    if r.Done? && r.rest != [] && r.rest[0].Word? && Argc(r.cmd) + 1 < MAXARGS {
      AddArgKeeps(r.cmd, r.rest[0].text);
      ArgsKeep(AddArg(r.cmd, r.rest[0].text), r.rest[1..]);
    }
  }

  lemma {:induction false} ExecKeeps(ts: seq<Token>)
    ensures Kept(Bag(ts), ParseExec(ts))
    decreases |ts|, 0
  {
    if !Starts(ts, "(") {
      ArgsKeep(Exec([]), ts);
    } else {
      LineKeeps(ts[1..]);
      var r := ParseLine(ts[1..]);
      if r.Done? && Starts(r.rest, ")") {
        RedirsKeep(r.cmd, r.rest[1..]);
      }
    }
  }

  lemma {:induction false} PipeKeeps(ts: seq<Token>)
    ensures Kept(Bag(ts), ParsePipe(ts))
    decreases |ts|, 1
  {
    ExecKeeps(ts);
    var r := ParseExec(ts);
    if r.Done? && Starts(r.rest, "|") {
      PipeKeeps(r.rest[1..]);
    }
  }

  lemma {:induction false} BacksKeep(c: Tree, ts: seq<Token>)
    requires Fits(c)
    ensures Kept(Leaves(c) + Bag(ts), Backs(c, ts))
    decreases |ts|
  {
    if Starts(ts, "&") {
      BacksKeep(Back(c), ts[1..]);
    }
  }

  /** The words of a line that parses are the words of its tree, with their number, */
  lemma {:induction false} LineKeeps(ts: seq<Token>)
    ensures Kept(Bag(ts), ParseLine(ts))
    decreases |ts|, 2
  {
    PipeKeeps(ts);
    var r := ParsePipe(ts);
    if r.Done? {
      BacksKeep(r.cmd, r.rest);
      var b := Backs(r.cmd, r.rest);
      if Starts(b.rest, ";") {
        LineKeeps(b.rest[1..]);
      }
    }
  }

  /** and the tree, written down again, is read as the same tree. */
  lemma ParseRenders(ts: seq<Token>)
    requires ParseLine(ts).Done? && ParseLine(ts).rest == []
    ensures ParseLine(Render(ParseLine(ts).cmd, 0)) == ParseLine(ts)
  {
    LineKeeps(ts);
    var c := ParseLine(ts).cmd;
    LineAt(c, []);
    assert Render(c, 0) + [] == Render(c, 0);
  }

  // ---------------------------------------------------------------- every tree can be typed

  predicate Spellable(t: Token) {
    match t
    case Op(c) => Symbol(c) || c == '+'
    case Word(w) => w != [] && forall k | 0 <= k < |w| :: !White(w[k]) && !Symbol(w[k])
  }

  function Chars(t: Token): string { if t.Word? then t.text else if t.c == '+' then ">>" else [t.c] }

  function Spell(ts: seq<Token>): string {
    if ts == [] then [] else [' '] + Chars(ts[0]) + Spell(ts[1..])
  }

  lemma SkipIs(s: string, p: nat, q: nat)
    requires p <= q <= |s| && (q < |s| ==> !White(s[q])) && forall k | p <= k < q :: White(s[k])
    ensures Skip(s, p) == q
  {
    var e := Skip(s, p);
    assert !(e < q) && !(q < e);
  }

  lemma WordEndIs(s: string, p: nat, q: nat)
    requires p <= q <= |s| && (q < |s| ==> White(s[q])) && forall k | p <= k < q :: !White(s[k]) && !Symbol(s[k])
    ensures WordEnd(s, p) == q
  {
    var e := WordEnd(s, p);
    assert !(e < q) && !(q < e);
  }

  /** The first token, spelled after a space and before the next one. */
  lemma TokenAt(s: string, p: nat, e: nat, t: Token)
    requires Spellable(t) && p < e <= |s| && s[p] == ' ' && s[p + 1..e] == Chars(t) && (e < |s| ==> s[e] == ' ')
    ensures Tokens(s, p) == [t] + Tokens(s, e)
  {
    var b := p + 1;
    assert e - b == |Chars(t)| && s[b] == Chars(t)[0];
    SkipIs(s, p, b);
    if t.Word? {
      forall k | b <= k < e ensures !White(s[k]) && !Symbol(s[k]) {
        assert s[k] == s[b..e][k - b];
      }
      WordEndIs(s, b, e);
    } else if t.c == '+' {
      assert s[b + 1] == s[b..e][1];
    }
  }

  lemma {:induction false} SpellTokens(pre: string, ts: seq<Token>)
    requires forall k | 0 <= k < |ts| :: Spellable(ts[k])
    ensures Tokens(pre + Spell(ts), |pre|) == ts
    decreases |ts|
  {
    if ts == [] {
      SkipIs(pre + Spell(ts), |pre|, |pre|);
    } else {
      var more := pre + [' '] + Chars(ts[0]);
      assert pre + Spell(ts) == more + Spell(ts[1..]);
      SpellTokens(more, ts[1..]);
      TokenAt(pre + Spell(ts), |pre|, |more|, ts[0]);
    }
  }

  /** Every word of the tree can be typed. */
  predicate Typable(c: Tree) {
    match c
    case Exec(args) => forall w | w in args :: Spellable(Word(w))
    case Redir(d, file, _) => Typable(d) && Spellable(Word(file))
    case Back(d) => Typable(d)
    case Pipe(l, r) => Typable(l) && Typable(r)
    case List(l, r) => Typable(l) && Typable(r)
  }

  lemma {:induction false} RenderSpellable(c: Tree, min: nat)
    requires min <= 3 && Typable(c)
    ensures forall k | 0 <= k < |Render(c, min)| :: Spellable(Render(c, min)[k])
    decreases c, if Level(c) < min then 1 else 0
  {
    if Level(c) < min {
      RenderSpellable(c, 0);
    } else {
      match c
      case Exec(_) =>
      case Redir(d, _, _) => RenderSpellable(d, 3);
      case Pipe(l, r) => RenderSpellable(l, 3); RenderSpellable(r, 2);
      case Back(d) => RenderSpellable(d, 1);
      case List(l, r) => RenderSpellable(l, 1); RenderSpellable(r, 0);
    }
  }

  /** Typed in, every tree is read as itself. */
  lemma TypedTreeParses(c: Tree)
    requires Fits(c) && Typable(c)
    ensures ParseLine(Tokens(Spell(Render(c, 0)), 0)) == Done(c, [])
  {
    RenderSpellable(c, 0);
    SpellTokens([], Render(c, 0));
    assert [] + Spell(Render(c, 0)) == Spell(Render(c, 0)) && Render(c, 0) + [] == Render(c, 0);
    LineAt(c, []);
  }

  // ---------------------------------------------------------------- the words of a line, by their places

  /** The pointers to a word's first character and to behind its last one. */
  datatype Span = Span(q: nat, eq: nat)

  predicate Delimiter(c: char) { White(c) || Symbol(c) }

  /** A word with nothing left out at its end. */
  predicate IsWord(s: string, w: Span) {
    w.q < w.eq <= |s| && (w.eq < |s| ==> Delimiter(s[w.eq])) && forall k | w.q <= k < w.eq :: !Delimiter(s[k])
  }

  predicate Placed(s: string, c: Cmd<Span>) {
    match c
    case Exec(args) => forall k | 0 <= k < |args| :: IsWord(s, args[k])
    case Redir(d, file, _) => Placed(s, d) && IsWord(s, file)
    case Back(d) => Placed(s, d)
    case Pipe(l, r) => Placed(s, l) && Placed(s, r)
    case List(l, r) => Placed(s, l) && Placed(s, r)
  }

  /** The tree with the text between the two pointers of each word. */
  function Counted(s: string, c: Cmd<Span>): Tree
    requires Placed(s, c)
  {
    match c
    case Exec(args) => Exec(seq(|args|, i requires 0 <= i < |args| => s[args[i].q..args[i].eq]))
    case Redir(d, file, mode) => Redir(Counted(s, d), s[file.q..file.eq], mode)
    case Back(d) => Back(Counted(s, d))
    case Pipe(l, r) => Pipe(Counted(s, l), Counted(s, r))
    case List(l, r) => List(Counted(s, l), Counted(s, r))
  }

  lemma {:induction false} CountedBare(s: string, c: Cmd<Span>)
    requires Placed(s, c) && Bare(c)
    ensures Bare(Counted(s, c)) && Argc(Counted(s, c)) == Argc(c)
  {
    if c.Redir? {
      CountedBare(s, c.cmd);
    }
  }

  lemma {:induction false} CountedAddArg(s: string, c: Cmd<Span>, w: Span)
    requires Placed(s, c) && IsWord(s, w) && Bare(c)
    ensures Placed(s, AddArg(c, w)) && Bare(Counted(s, c))
    ensures Counted(s, AddArg(c, w)) == AddArg(Counted(s, c), s[w.q..w.eq])
  {
    if c.Redir? {
      CountedAddArg(s, c.cmd, w);
    }
  }

  // ---------------------------------------------------------------- the parser, on a line

  datatype Result = Ok(cmd: Cmd<Span>) | Panic

  /** The tree and the tokens left over are those of the grammar; a panic is a line it does not have. */
  ghost predicate Meets(s: string, r: Result, p: nat, spec: Parsed) {
    match spec
    case Bad => r.Panic?
    case Done(c, ts) => r.Ok? && p <= |s| && Placed(s, r.cmd) && Counted(s, r.cmd) == c && Tokens(s, p) == ts
  }

  method SkipWhite(s: string, p: nat) returns (q: nat)
    requires p <= |s|
    ensures q == Skip(s, p)
  {
    q := p;
    while q < |s| && White(s[q])
      invariant p <= q <= |s| && Skip(s, q) == Skip(s, p)
    {
      q := q + 1;
    }
  }

  method Peek(s: string, p: nat, toks: string) returns (q: nat, b: bool)
    requires p <= |s| && forall c | c in toks :: Symbol(c)
    ensures p <= q <= |s| && Tokens(s, q) == Tokens(s, p)
    ensures b <==> Starts(Tokens(s, p), toks)
    ensures q == |s| <==> Tokens(s, p) == []
  {
    q := SkipWhite(s, p);
    SkipTwice(s, p);
    b := q < |s| && s[q] in toks;
  }

  /** The switch of gettoken(): the token that begins at b, up to e. */
  method Scan(s: string, b: nat) returns (tok: char, e: nat)
    requires b < |s| && !White(s[b])
    ensures b < e <= |s| && Tokens(s, b) != [] && Tokens(s, e) == Tokens(s, b)[1..]
    ensures Tokens(s, b)[0].Op? ==> tok == Tokens(s, b)[0].c && (Symbol(tok) || tok == '+')
    ensures Tokens(s, b)[0].Word? ==> tok == 'a' && IsWord(s, Span(b, e)) && s[b..e] == Tokens(s, b)[0].text
  {
    tok, e := s[b], b + 1;
    if s[b] == '>' {
      if e < |s| && s[e] == '>' {
        tok := '+';
        e := e + 1;
      }
    } else if !Symbol(s[b]) {
      tok, e := 'a', b;
      while e < |s| && !White(s[e]) && !Symbol(s[e])
        invariant b <= e <= |s| && WordEnd(s, e) == WordEnd(s, b)
      {
        e := e + 1;
      }
    }
  }

  method Gettoken(s: string, p: nat) returns (tok: char, w: Span, q: nat)
    requires p <= |s|
    ensures p <= q <= |s|
    ensures Tokens(s, p) == [] ==> tok == NUL
    ensures Tokens(s, p) != [] ==> p < q && Tokens(s, q) == Tokens(s, p)[1..]
    ensures Tokens(s, p) != [] && Tokens(s, p)[0].Op? ==> tok == Tokens(s, p)[0].c && (Symbol(tok) || tok == '+')
    ensures Tokens(s, p) != [] && Tokens(s, p)[0].Word? ==>
      tok == 'a' && IsWord(s, w) && s[w.q..w.eq] == Tokens(s, p)[0].text
  {
    var b := SkipWhite(s, p);
    SkipTwice(s, p);
    var e := b;
    tok := NUL;
    if b < |s| {
      tok, e := Scan(s, b);
    }
    w := Span(b, e);
    SkipTwice(s, e);
    q := SkipWhite(s, e);
  }

  lemma RedirsNext(c: Tree, ts: seq<Token>)
    requires Starts(ts, "<>")
    ensures |ts| == 1 || ts[1].Op? ==> Redirs(c, ts).Bad?
    ensures |ts| > 1 && ts[1].Word? ==> Redirs(c, ts) == Redirs(Redir(c, ts[1].text, ModeOf(ts[0].c)), ts[1..][1..])
  {
    if |ts| > 1 {
      assert ts[1..][1..] == ts[2..];
    }
  }

  /** redircmd() */
  method Redircmd(c: Cmd<Span>, w: Span, mode: Mode, ghost s: string) returns (r: Cmd<Span>)
    requires Placed(s, c) && IsWord(s, w)
    ensures Placed(s, r) && Counted(s, r) == Redir(Counted(s, c), s[w.q..w.eq], mode)
    ensures Bare(c) ==> Bare(r) && Argc(r) == Argc(c)
  {
    r := Redir(c, w, mode);
  }

  method Parseredirs(cmd: Cmd<Span>, s: string, p: nat) returns (r: Result, q: nat)
    requires p <= |s| && Placed(s, cmd)
    ensures p <= q && Meets(s, r, q, Redirs(Counted(s, cmd), Tokens(s, p)))
    ensures r.Ok? && Bare(cmd) ==> Bare(r.cmd) && Argc(r.cmd) == Argc(cmd)
  {
    var c, b := cmd, false;
    q, b := Peek(s, p, "<>");
    while b
      invariant p <= q <= |s| && Placed(s, c) && (Bare(cmd) ==> Bare(c) && Argc(c) == Argc(cmd))
      invariant b <==> Starts(Tokens(s, q), "<>")
      invariant Redirs(Counted(s, c), Tokens(s, q)) == Redirs(Counted(s, cmd), Tokens(s, p))
      decreases |s| - q
    {
      var tok, tok', w;
      ghost var ts := Tokens(s, q);
      RedirsNext(Counted(s, c), ts);
      tok, w, q := Gettoken(s, q);
      tok', w, q := Gettoken(s, q);
      if tok' != 'a' {
        return Panic, q;
      }
      c := Redircmd(c, w, ModeOf(tok), s);
      q, b := Peek(s, q, "<>");
    }
    r := Ok(c);
  }

  /** After its redirections a plain command goes on the same way. */
  lemma ArgsRedirs(c: Tree, ts: seq<Token>)
    requires Bare(c)
    ensures var r := Redirs(c, ts); if r.Bad? then Args(c, ts).Bad? else Args(r.cmd, r.rest) == Args(c, ts)
  {
    var r := Redirs(c, ts);
    assert r.Done? ==> Redirs(r.cmd, r.rest) == r;
  }

  /** The body of the loop: one more argument, and its redirections. */
  method Parsearg(cmd: Cmd<Span>, tok: char, w: Span, argc: nat, s: string, p: nat, ghost ts: seq<Token>)
    returns (r: Result, q: nat)
    requires p <= |s| && Placed(s, cmd) && Bare(cmd) && Argc(cmd) == argc
    requires ts != [] && ts[1..] == Tokens(s, p) && !Starts(ts, "<>") && !Starts(ts, "|)&;")
    requires if ts[0].Op? then tok != 'a' else tok == 'a' && IsWord(s, w) && s[w.q..w.eq] == ts[0].text
    ensures p <= q
    ensures Bare(Counted(s, cmd))
    ensures r.Panic? ==> Args(Counted(s, cmd), ts).Bad?
    ensures r.Ok? ==> q <= |s| && Placed(s, r.cmd) && Bare(r.cmd) && Argc(r.cmd) == argc + 1 && Bare(Counted(s, r.cmd))
    ensures r.Ok? ==> !Starts(Tokens(s, q), "<>") && Args(Counted(s, r.cmd), Tokens(s, q)) == Args(Counted(s, cmd), ts)
  {
    q := p;
    CountedBare(s, cmd);
    if tok != 'a' {
      return Panic, q;
    }
    CountedAddArg(s, cmd, w);
    if argc + 1 >= MAXARGS {
      return Panic, q;
    }
    var d := AddArg(cmd, w);
    ArgsRedirs(Counted(s, d), Tokens(s, p));
    r, q := Parseredirs(d, s, p);
  }

  /** The arguments of a plain command, from the first one on. */
  method Parseargs(cmd: Cmd<Span>, s: string, p: nat) returns (r: Result, q: nat)
    requires p <= |s| && Placed(s, cmd) && Bare(cmd) && Argc(cmd) == 0 && Bare(Counted(s, cmd))
    requires !Starts(Tokens(s, p), "<>")
    ensures p <= q && Meets(s, r, q, Args(Counted(s, cmd), Tokens(s, p)))
  {
    var argc, b := 0, false;
    r := Ok(cmd);
    q, b := Peek(s, p, "|)&;");
    while !b
      invariant p <= q <= |s| && r.Ok? && Placed(s, r.cmd) && Bare(r.cmd) && Argc(r.cmd) == argc
      invariant Bare(Counted(s, r.cmd))
      invariant b <==> Starts(Tokens(s, q), "|)&;")
      invariant !Starts(Tokens(s, q), "<>")
      invariant Args(Counted(s, r.cmd), Tokens(s, q)) == Args(Counted(s, cmd), Tokens(s, p))
      decreases |s| - q
    {
      var tok, w;
      ghost var ts := Tokens(s, q);
      tok, w, q := Gettoken(s, q);
      if tok == NUL {
        break;
      }
      r, q := Parsearg(r.cmd, tok, w, argc, s, q, ts);
      if r.Panic? {
        return;
      }
      argc := argc + 1;
      q, b := Peek(s, q, "|)&;");
    }
  }

  method Parseexec(s: string, p: nat) returns (r: Result, q: nat)
    requires p <= |s|
    ensures p <= q && Meets(s, r, q, ParseExec(Tokens(s, p)))
    decreases |s| - p, 1
  {
    var b;
    q, b := Peek(s, p, "(");
    if b {
      r, q := Parseblock(s, q);
      return;
    }
    ArgsRedirs(Exec([]), Tokens(s, q));
    assert Counted(s, Exec([])) == Exec([]);
    r, q := Parseredirs(Exec([]), s, q);
    if r.Panic? {
      return;
    }
    CountedBare(s, r.cmd);
    r, q := Parseargs(r.cmd, s, q);
  }

  method Parseblock(s: string, p: nat) returns (r: Result, q: nat)
    requires p <= |s| && Starts(Tokens(s, p), "(")
    ensures p <= q && Meets(s, r, q, ParseExec(Tokens(s, p)))
    decreases |s| - p, 0
  {
    var tok, w, b;
    tok, w, q := Gettoken(s, p);
    r, q := Parseline(s, q);
    if r.Panic? {
      return;
    }
    q, b := Peek(s, q, ")");
    if !b {
      return Panic, q;
    }
    tok, w, q := Gettoken(s, q);
    r, q := Parseredirs(r.cmd, s, q);
  }

  method Parsepipe(s: string, p: nat) returns (r: Result, q: nat)
    requires p <= |s|
    ensures p <= q && Meets(s, r, q, ParsePipe(Tokens(s, p)))
    decreases |s| - p, 2
  {
    var b;
    r, q := Parseexec(s, p);
    if r.Panic? {
      return;
    }
    q, b := Peek(s, q, "|");
    if b {
      var tok, w, r';
      tok, w, q := Gettoken(s, q);
      r', q := Parsepipe(s, q);
      if r'.Panic? {
        return Panic, q;
      }
      r := Ok(Pipe(r.cmd, r'.cmd));
    }
  }

  method Parseline(s: string, p: nat) returns (r: Result, q: nat)
    requires p <= |s|
    ensures p <= q && Meets(s, r, q, ParseLine(Tokens(s, p)))
    decreases |s| - p, 3
  {
    var b, tok, w;
    r, q := Parsepipe(s, p);
    if r.Panic? {
      return;
    }
    ghost var spec := Backs(Counted(s, r.cmd), Tokens(s, q));
    q, b := Peek(s, q, "&");
    while b
      invariant p <= q <= |s| && r.Ok? && Placed(s, r.cmd)
      invariant b <==> Starts(Tokens(s, q), "&")
      invariant Backs(Counted(s, r.cmd), Tokens(s, q)) == spec
      decreases |s| - q
    {
      tok, w, q := Gettoken(s, q);
      r := Ok(Back(r.cmd));
      q, b := Peek(s, q, "&");
    }
    q, b := Peek(s, q, ";");
    if b {
      var r';
      tok, w, q := Gettoken(s, q);
      r', q := Parseline(s, q);
      if r'.Panic? {
        return Panic, q;
      }
      r := Ok(List(r.cmd, r'.cmd));
    }
  }

  // ---------------------------------------------------------------- nulterminate()

  /** Place k is behind a word of the tree. */
  predicate Ends(c: Cmd<Span>, k: nat) {
    match c
    case Exec(args) => exists i | 0 <= i < |args| :: args[i].eq == k
    case Redir(d, file, _) => Ends(d, k) || file.eq == k
    case Back(d) => Ends(d, k)
    case Pipe(l, r) => Ends(l, k) || Ends(r, k)
    case List(l, r) => Ends(l, k) || Ends(r, k)
  }

  predicate EndsBelow(c: Cmd<Span>, n: nat) {
    match c
    case Exec(args) => forall i | 0 <= i < |args| :: args[i].eq < n
    case Redir(d, file, _) => EndsBelow(d, n) && file.eq < n
    case Back(d) => EndsBelow(d, n)
    case Pipe(l, r) => EndsBelow(l, n) && EndsBelow(r, n)
    case List(l, r) => EndsBelow(l, n) && EndsBelow(r, n)
  }

  /** The tree with the C string at each word's first character, which is how it will be read. */
  function Strings(b: string, c: Cmd<Span>): Tree {
    match c
    case Exec(args) => Exec(seq(|args|, i requires 0 <= i < |args| => CString(b, args[i].q)))
    case Redir(d, file, mode) => Redir(Strings(b, d), CString(b, file.q), mode)
    case Back(d) => Back(Strings(b, d))
    case Pipe(l, r) => Pipe(Strings(b, l), Strings(b, r))
    case List(l, r) => List(Strings(b, l), Strings(b, r))
  }

  /** A NUL is only ever written where no word is. */
  lemma {:induction false} EndsOutside(s: string, c: Cmd<Span>, k: nat)
    requires Placed(s, c) && Ends(c, k)
    ensures k == |s| || (k < |s| && Delimiter(s[k]))
  {
    match c
    case Exec(_) =>
    case Redir(d, file, _) => if Ends(d, k) { EndsOutside(s, d, k); }
    case Back(d) => EndsOutside(s, d, k);
    case Pipe(l, r) => if Ends(l, k) { EndsOutside(s, l, k); } else { EndsOutside(s, r, k); }
    case List(l, r) => if Ends(l, k) { EndsOutside(s, l, k); } else { EndsOutside(s, r, k); }
  }

  /** A buffer in which the words of the line stand, with a NUL at each end of the tree. */
  ghost predicate Terminated(s: string, b: string, c: Cmd<Span>) {
    && |s| < |b|
    && (forall k {:trigger b[k]} | 0 <= k < |s| && !Delimiter(s[k]) :: b[k] == s[k])
    && (forall k {:trigger b[k]} | 0 <= k < |b| && Ends(c, k) :: b[k] == NUL)
  }

  lemma WordString(s: string, b: string, w: Span)
    requires NUL !in s && IsWord(s, w) && |s| < |b| && b[w.eq] == NUL
    requires forall k {:trigger b[k]} | 0 <= k < |s| && !Delimiter(s[k]) :: b[k] == s[k]
    ensures CString(b, w.q) == s[w.q..w.eq]
  {
    forall k | w.q <= k < w.eq ensures b[k] == s[k] && b[k] != NUL {
      assert s[k] in s;
    }
    CStringIs(b, w.q, w.eq);
    assert b[w.q..w.eq] == s[w.q..w.eq];
  }

  lemma {:induction false} TerminatedReads(s: string, b: string, c: Cmd<Span>)
    requires NUL !in s && Placed(s, c) && Terminated(s, b, c)
    ensures Strings(b, c) == Counted(s, c)
  {
    match c
    case Exec(args) =>
      forall i | 0 <= i < |args| ensures CString(b, args[i].q) == s[args[i].q..args[i].eq] {
        assert Ends(c, args[i].eq);
        WordString(s, b, args[i]);
      }
    case Redir(d, file, _) =>
      assert Ends(c, file.eq);
      WordString(s, b, file);
      TerminatedReads(s, b, d);
    case Back(d) => TerminatedReads(s, b, d);
    case Pipe(l, r) => TerminatedReads(s, b, l); TerminatedReads(s, b, r);
    case List(l, r) => TerminatedReads(s, b, l); TerminatedReads(s, b, r);
  }

  lemma {:induction false} PlacedEndsBelow(s: string, c: Cmd<Span>)
    requires Placed(s, c)
    ensures EndsBelow(c, |s| + 1)
  {
    match c
    case Exec(_) =>
    case Redir(d, _, _) => PlacedEndsBelow(s, d);
    case Back(d) => PlacedEndsBelow(s, d);
    case Pipe(l, r) => PlacedEndsBelow(s, l); PlacedEndsBelow(s, r);
    case List(l, r) => PlacedEndsBelow(s, l); PlacedEndsBelow(s, r);
  }

  method Nulterminate(c: Cmd<Span>, buf: array<char>)
    requires EndsBelow(c, buf.Length)
    modifies buf
    ensures forall k | 0 <= k < buf.Length :: buf[k] == if Ends(c, k) then NUL else old(buf[k])
    decreases c
  {
    match c
    case Exec(args) =>
      for i := 0 to |args|
        invariant forall k | 0 <= k < buf.Length ::
          buf[k] == if exists j | 0 <= j < i :: args[j].eq == k then NUL else old(buf[k])
      {
        buf[args[i].eq] := NUL;
      }
    case Redir(d, file, _) =>
      Nulterminate(d, buf);
      buf[file.eq] := NUL;
    case Back(d) =>
      Nulterminate(d, buf);
    case Pipe(l, r) =>
      Nulterminate(l, buf);
      Nulterminate(r, buf);
    case List(l, r) =>
      Nulterminate(l, buf);
      Nulterminate(r, buf);
  }

  /** parsecmd(), on the C string s in the buffer: a tree whose words, read as C strings, are those of the
      line's command; a panic, with the buffer as it was, when the line is not one command. */
  method Parsecmd(buf: array<char>) returns (r: Result, ghost s: string)
    requires NUL in buf[..]
    modifies buf
    ensures NUL !in s && s + [NUL] <= old(buf[..])
    ensures var p := ParseLine(Tokens(s, 0)); Complete(p) ==> r.Ok? && Strings(buf[..], r.cmd) == p.cmd
    ensures !Complete(ParseLine(Tokens(s, 0))) ==> r.Panic? && buf[..] == old(buf[..])
  {
    var es := 0;
    while buf[es] != NUL
      invariant es < buf.Length && forall k | 0 <= k < es :: buf[k] != NUL
      decreases buf.Length - es
    {
      assert NUL in buf[es + 1..] by {
        assert buf[..] == buf[..es + 1] + buf[es + 1..];
      }
      es := es + 1;
    }
    var line := buf[..es];
    s := line;
    var q, b;
    r, q := Parseline(line, 0);
    if r.Panic? {
      return;
    }
    q, b := Peek(line, q, "");
    if q != es {
      r := Panic;
      return;
    }
    PlacedEndsBelow(s, r.cmd);
    WiderEndsBelow(r.cmd, es + 1, buf.Length);
    forall k | 0 <= k < es && Ends(r.cmd, k) ensures Delimiter(s[k]) {
      EndsOutside(s, r.cmd, k);
    }
    Nulterminate(r.cmd, buf);
    TerminatedReads(s, buf[..], r.cmd);
  }

  /** The shell panics on `a & b`. */
  method TypedAmpersand() returns (r: Result)
    ensures r.Panic?
  {
    var buf := new char[6];
    buf[0], buf[1], buf[2], buf[3], buf[4], buf[5] := 'a', ' ', '&', ' ', 'b', NUL;
    ghost var line := buf[..];
    assert line == "a & b" + [NUL] && line[5] == NUL;
    ghost var s;
    r, s := Parsecmd(buf);
    assert s == "a & b" by {
      assert s[..] == line[..|s|] && line[|s|] == NUL;
    }
    AmpersandIncomplete(s);
  }

  lemma AmpersandIncomplete(s: string)
    requires s == "a & b"
    ensures !Complete(ParseLine(Tokens(s, 0)))
  {
    AmpersandTokens(s);
    assert Render(Exec(["a"]), 1) + [Op('&')] + [Word("b")] == [Word("a"), Op('&'), Word("b")];
    NoSeparator(Exec(["a"]), [Word("b")]);
  }

  lemma AmpersandTokens(s: string)
    requires s == "a & b"
    ensures Tokens(s, 0) == [Word("a"), Op('&'), Word("b")]
  {
    SkipIs(s, 0, 0);
    WordEndIs(s, 0, 1);
    SkipIs(s, 1, 2);
    SkipIs(s, 3, 4);
    WordEndIs(s, 4, 5);
    SkipIs(s, 5, 5);
    assert Tokens(s, 5) == [] && s[4..5] == "b" && s[0..1] == "a";
    assert Tokens(s, 3) == [Word("b")];
    assert Tokens(s, 1) == [Op('&')] + Tokens(s, 3);
  }

  lemma {:induction false} WiderEndsBelow(c: Cmd<Span>, n: nat, m: nat)
    requires EndsBelow(c, n) && n <= m
    ensures EndsBelow(c, m)
  {
    match c
    case Exec(_) =>
    case Redir(d, _, _) => WiderEndsBelow(d, n, m);
    case Back(d) => WiderEndsBelow(d, n, m);
    case Pipe(l, r) => WiderEndsBelow(l, n, m); WiderEndsBelow(r, n, m);
    case List(l, r) => WiderEndsBelow(l, n, m); WiderEndsBelow(r, n, m);
  }
}
