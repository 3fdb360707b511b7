/** grep: the regular-expression matcher, and the loop that cuts its input into lines. */
module Grep {
  import opened Basics

  const BUF := 1024

  // ---------------------------------------------------------------- the language of a pattern

  /** A literal character, `.`, or a starred character, where `.*` stands for anything. */
  datatype Item = Lit(c: char) | Any | Star(c: char)

  /** A pattern without `^`: its items, and whether it ends in `$`. */
  datatype Pattern = Pattern(items: seq<Item>, toEnd: bool)

  function Parse(re: string): Pattern {
    if re == [] then Pattern([], false)
    else if |re| > 1 && re[1] == '*' then var p := Parse(re[2..]); p.(items := [Star(re[0])] + p.items)
    else if re == "$" then Pattern([], true)
    else var p := Parse(re[1..]); p.(items := [if re[0] == '.' then Any else Lit(re[0])] + p.items)
  }

  /** A pattern written down. */
  function Render(p: Pattern): string
    decreases |p.items|
  {
    if p.items == [] then (if p.toEnd then "$" else "")
    else RenderItem(p.items[0]) + Render(p.(items := p.items[1..]))
  }

  function RenderItem(i: Item): string {
    match i
    case Lit(c) => [c]
    case Any => "."
    case Star(c) => [c, '*']
  }

  /** Each character means itself where it can: none is a literal `.`, none before a star stands for itself
      alone, and no literal `$` ends the pattern. */
  predicate Plain(p: Pattern)
    decreases |p.items|
  {
    p.items == [] ||
    (&& p.items[0] != Lit('.') && Plain(p.(items := p.items[1..]))
     && (!p.items[0].Star? && |p.items| > 1 ==> RenderItem(p.items[1])[0] != '*')
     && (|p.items| == 1 && !p.toEnd ==> p.items[0] != Lit('$')))
  }

  /** Every string is the rendering of its pattern, in which each character means what it can, */
  lemma {:induction false} ParseExactly(re: string)
    ensures Render(Parse(re)) == re && Plain(Parse(re))
  {
    if re == [] {
    } else if |re| > 1 && re[1] == '*' {
      ParseExactly(re[2..]);
      RenderMore(Star(re[0]), Parse(re[2..]));
      assert [re[0], '*'] + re[2..] == re;
    } else if re != "$" {
      ParseExactly(re[1..]);
      RenderMore(if re[0] == '.' then Any else Lit(re[0]), Parse(re[1..]));
      assert [re[0]] + re[1..] == re;
    }
  }

  /** One item more in front. */
  lemma RenderMore(i: Item, p: Pattern)
    requires Plain(p) && i != Lit('.') && (i.Star? || Render(p) == [] || Render(p)[0] != '*')
    requires i == Lit('$') ==> Render(p) != []
    ensures var q := p.(items := [i] + p.items); Render(q) == RenderItem(i) + Render(p) && Plain(q)
  {
    assert ([i] + p.items)[1..] == p.items;
  }

  /** ... and there is no other such pattern. */
  lemma {:induction false} RenderParses(p: Pattern)
    requires Plain(p)
    ensures Parse(Render(p)) == p
    decreases |p.items|
  {
    if p.items != [] {
      var rest := p.(items := p.items[1..]);
      RenderParses(rest);
      assert [p.items[0]] + rest.items == p.items;
      assert Render(p)[|RenderItem(p.items[0])|..] == Render(rest);
      assert rest.items != [] ==> Render(rest)[0] == RenderItem(rest.items[0])[0];
    }
  }

  ghost predicate InItem(i: Item, s: string) {
    match i
    case Lit(c) => s == [c]
    case Any => |s| == 1
    case Star(c) => c == '.' || forall k | 0 <= k < |s| :: s[k] == c
  }

  /** The strings of a sequence of items: those of the first, then those of the rest. */
  ghost predicate In(items: seq<Item>, s: string) {
    if items == [] then s == [] else exists k {:trigger s[..k]} ::
      0 <= k <= |s| && InItem(items[0], s[..k]) && In(items[1..], s[k..])
  }

  /** The text begins with a string of the pattern, which is all of it if the pattern says so. */
  ghost predicate Begins(p: Pattern, text: string) {
    exists n {:trigger text[..n]} :: 0 <= n <= |text| && In(p.items, text[..n]) && (p.toEnd ==> n == |text|)
  }

  /** The text contains a string of the pattern, at its beginning if the pattern starts with `^`. */
  ghost predicate Matches(re: string, text: string) {
    if re != [] && re[0] == '^' then Begins(Parse(re[1..]), text)
    else exists k {:trigger text[k..]} :: 0 <= k <= |text| && Begins(Parse(re), text[k..])
  }

  // ---------------------------------------------------------------- what the first item asks for

  /** Splitting off the part of the text that the first item takes. */
  lemma BeginsWith(p: Pattern, text: string)
    requires p.items != []
    ensures Begins(p, text) <==>
      exists k {:trigger text[k..]} ::
      0 <= k <= |text| && InItem(p.items[0], text[..k]) && Begins(p.(items := p.items[1..]), text[k..])
  {
    var rest := p.(items := p.items[1..]);
    if Begins(p, text) {
      var n :| 0 <= n <= |text| && In(p.items, text[..n]) && (p.toEnd ==> n == |text|);
      var k :| 0 <= k <= |text[..n]| && InItem(p.items[0], text[..n][..k]) && In(p.items[1..], text[..n][k..]);
      assert text[..n][..k] == text[..k] && text[..n][k..] == text[k..][..n - k];
      assert Begins(rest, text[k..]);
    }
    if k :| 0 <= k <= |text| && InItem(p.items[0], text[..k]) && Begins(rest, text[k..]) {
      var n :| 0 <= n <= |text[k..]| && In(rest.items, text[k..][..n]) && (p.toEnd ==> n == |text[k..]|);
      var s := text[..k + n];
      assert |s| == k + n && s[..k] == text[..k];
      SliceOf(text, k, n);
      assert In(p.items, s);
    }
  }

  lemma SliceOf(text: string, k: nat, n: nat)
    requires k + n <= |text|
    ensures text[..k + n][k..] == text[k..][..n]
  {}

  lemma BeginsEmpty(text: string)
    ensures Begins(Pattern([], false), text) && (Begins(Pattern([], true), text) <==> text == [])
  {
    assert text[..0] == [];
  }

  /** A single character, literal or `.`. */
  lemma BeginsOne(i: Item, p: Pattern, text: string)
    requires !i.Star?
    ensures Begins(p.(items := [i] + p.items), text) <==>
      text != [] && (i.Any? || i.c == text[0]) && Begins(p, text[1..])
  {
    var q := p.(items := [i] + p.items);
    BeginsWith(q, text);
    assert q.items[1..] == p.items;
    if text != [] && (i.Any? || i.c == text[0]) && Begins(p, text[1..]) {
      assert InItem(i, text[..1]);
    }
    if k :| 0 <= k <= |text| && InItem(i, text[..k]) && Begins(p, text[k..]) {
      assert k == 1 && text[..k][0] == text[0];
    }
  }

  // ---------------------------------------------------------------- the matcher

  /** match() */
  method Match(re: string, text: string) returns (r: bool)
    ensures r <==> Matches(re, text)
  {
    if re != [] && re[0] == '^' {
      r := MatchHere(re[1..], text);
      return;
    }
    var k := 0;
    while true
      invariant 0 <= k <= |text|
      invariant forall j {:trigger text[j..]} | 0 <= j < k :: !Begins(Parse(re), text[j..])
      decreases |text| - k
    {
      r := MatchHere(re, text[k..]);
      if r {
        return true;
      }
      if k == |text| {
        break;
      }
      k := k + 1;
    }
    return false;
  }

  method MatchHere(re: string, text: string) returns (r: bool)
    ensures r <==> Begins(Parse(re), text)
    decreases |re|, 0
  {
    BeginsEmpty(text);
    if re == [] {
      return true;
    }
    if |re| > 1 && re[1] == '*' {
      r := MatchStar(re[0], re[2..], text);
      return;
    }
    if re == "$" {
      return text == [];
    }
    BeginsOne(if re[0] == '.' then Any else Lit(re[0]), Parse(re[1..]), text);
    if text != [] && (re[0] == '.' || re[0] == text[0]) {
      r := MatchHere(re[1..], text[1..]);
      return;
    }
    return false;
  }

  method MatchStar(c: char, re: string, text: string) returns (r: bool)
    ensures r <==> Begins(Parse(re).(items := [Star(c)] + Parse(re).items), text)
    decreases |re| + 1, 0
  {
    ghost var p := Parse(re).(items := [Star(c)] + Parse(re).items);
    BeginsWith(p, text);
    assert p.items[1..] == Parse(re).items && p.(items := p.items[1..]) == Parse(re);
    var k := 0;
    while true
      invariant 0 <= k <= |text| && InItem(Star(c), text[..k])
      invariant forall j {:trigger text[j..]} | 0 <= j < k :: !Begins(Parse(re), text[j..])
      decreases |text| - k
    {
      r := MatchHere(re, text[k..]);
      if r {
        return true;
      }
      if k == |text| || !(text[k] == c || c == '.') {
        break;
      }
      assert text[..k + 1] == text[..k] + [text[k]];
      k := k + 1;
    }
    forall j {:trigger text[j..]} | k < j <= |text| ensures !InItem(Star(c), text[..j]) {
      assert text[..j][k] == text[k];
    }
    return false;
  }

  // ---------------------------------------------------------------- the lines of the input

  /** The first newline of s from place p on; |s| when there is none. */
  ghost function Eol(s: string, p: nat): (q: nat)
    requires p <= |s|
    ensures p <= q <= |s| && (q < |s| ==> s[q] == '\n') && forall k | p <= k < q :: s[k] != '\n'
    decreases |s| - p
  {
    if p == |s| || s[p] == '\n' then p else Eol(s, p + 1)
  }

  /** The lines from place p on that match, in order, each with its newline, up to the first one that
      does not fit into the buffer with its newline. */
  ghost function Selected(re: string, s: string, p: nat): string
    requires p <= |s|
    decreases |s| - p
  {
    var q := Eol(s, p);
    if q == |s| || q - p >= BUF - 1 then []
    else (if Matches(re, s[p..q]) then s[p..q + 1] else []) + Selected(re, s, q + 1)
  }

  /** Without a limit on lines, but each with its newline, */
  ghost function AllSelected(re: string, s: string, p: nat): string
    requires p <= |s|
    decreases |s| - p
  {
    var q := Eol(s, p);
    if q == |s| then [] else (if Matches(re, s[p..q]) then s[p..q + 1] else []) + AllSelected(re, s, q + 1)
  }

  /** and with the last line, if that has none. */
  ghost function AllMatching(re: string, s: string, p: nat): string
    requires p <= |s|
    decreases |s| - p
  {
    var q := Eol(s, p);
    if q == |s| then (if p < |s| && Matches(re, s[p..]) then s[p..] else [])
    else (if Matches(re, s[p..q]) then s[p..q + 1] else []) + AllMatching(re, s, q + 1)
  }

  /** Where the first line from place p on begins that does not fit into the buffer with its newline, or
      has none. */
  ghost function Stop(s: string, p: nat): (k: nat)
    requires p <= |s|
    ensures p <= k <= |s|
    decreases |s| - p
  {
    var q := Eol(s, p);
    if q == |s| || q - p >= BUF - 1 then p else Stop(s, q + 1)
  }

  /** What is selected are the matching lines before that place. */
  lemma {:induction false} SelectedBefore(re: string, s: string, p: nat)
    requires p <= |s|
    ensures AllSelected(re, s, p) == Selected(re, s, p) + AllSelected(re, s, Stop(s, p))
    ensures AllMatching(re, s, p) == Selected(re, s, p) + AllMatching(re, s, Stop(s, p))
    decreases |s| - p
  {
    var q := Eol(s, p);
    if q == |s| || q - p >= BUF - 1 {
      assert Selected(re, s, p) == [];
    } else {
      var head := if Matches(re, s[p..q]) then s[p..q + 1] else [];
      SelectedBefore(re, s, q + 1);
      Appended(head, Selected(re, s, q + 1), AllSelected(re, s, Stop(s, q + 1)));
      Appended(head, Selected(re, s, q + 1), AllMatching(re, s, Stop(s, q + 1)));
    }
  }

  /** All matching lines are selected just if no line matches from there on. */
  lemma SelectsAllExactly(re: string, s: string)
    ensures Selected(re, s, 0) == AllSelected(re, s, 0) <==> AllSelected(re, s, Stop(s, 0)) == []
    ensures Selected(re, s, 0) == AllMatching(re, s, 0) <==> AllMatching(re, s, Stop(s, 0)) == []
  {
    SelectedBefore(re, s, 0);
  }

  /** Every line from place p on that ends in a newline has at most 1023 bytes with it. */
  ghost predicate LinesFit(s: string, p: nat)
    requires p <= |s|
    decreases |s| - p
  {
    var q := Eol(s, p);
    q == |s| || (q - p < BUF - 1 && LinesFit(s, q + 1))
  }

  lemma {:induction false} FitSelectsAll(re: string, s: string, p: nat)
    requires p <= |s| && LinesFit(s, p)
    ensures Selected(re, s, p) == AllSelected(re, s, p)
    decreases |s| - p
  {
    var q := Eol(s, p);
    if q < |s| {
      FitSelectsAll(re, s, q + 1);
    }
  }

  lemma EolIs(s: string, p: nat, q: nat)
    requires p <= q <= |s| && (q < |s| ==> s[q] == '\n') && forall k | p <= k < q :: s[k] != '\n'
    ensures Eol(s, p) == q
  {
    var e := Eol(s, p);
    assert !(e < q) && !(q < e);
  }

  // ---------------------------------------------------------------- the loop

  /** strchr(p, '\n'): its place in a buffer that ends with NUL at m; -1 for none. */
  method Strchr(buf: array<char>, p: nat, m: nat) returns (q: int)
    requires p <= m < buf.Length && buf[m] == NUL && forall k | p <= k < m :: buf[k] != NUL
    ensures q == -1 ==> forall k | p <= k < m :: buf[k] != '\n'
    ensures q != -1 ==> p <= q < m && buf[q] == '\n' && forall k | p <= k < q :: buf[k] != '\n'
  {
    q := p;
    while buf[q] != NUL
      invariant p <= q <= m && forall k | p <= k < q :: buf[k] != '\n'
      decreases m - q
    {
      if buf[q] == '\n' {
        return;
      }
      q := q + 1;
    }
    return -1;
  }

  /** From p to m the buffer holds the input from at on. */
  ghost predicate Holds(buf: array<char>, p: nat, m: nat, input: string, at: nat)
    reads buf
  {
    p <= m < buf.Length && at + m <= |input| + p && forall key {:trigger Key(key, at)} | Key(key, at) ::
      Same(buf, p, m, input, at)
  }

  ghost predicate Same(buf: array<char>, p: nat, m: nat, input: string, at: nat)
    requires p <= m < buf.Length && at + m <= |input| + p
    reads buf
  {
    forall k | p <= k < m :: buf[k] == input[at + k - p]
  }

  lemma NoNul(buf: array<char>, p: nat, m: nat, input: string, at: nat)
    requires Holds(buf, p, m, input, at) && NUL !in input
    ensures forall k | p <= k < m :: buf[k] != NUL
  {
    assert Key(0, at);
  }

  /** The line from p to the newline at q, ended by NUL while it is matched; only a line that is
      written gets its newline back. */
  method Line(pattern: string, buf: array<char>, p: nat, q: nat, done: string) returns (out: string)
    requires p <= q < buf.Length && buf[q] == '\n' && forall k | p <= k < q :: buf[k] != NUL
    modifies buf
    ensures forall k | q < k < buf.Length :: buf[k] == old(buf[k])
    ensures out == done + if Matches(pattern, old(buf[p..q])) then old(buf[p..q + 1]) else []
  {
    buf[q] := NUL;
    assert buf[p..q] == old(buf[p..q]);
    CStringIs(buf[..], p, q);
    var r := Match(pattern, CString(buf[..], p));
    out := done;
    if r {
      buf[q] := '\n';
      assert buf[p..q + 1] == old(buf[p..q + 1]);
      out := out + buf[p..q + 1];
    }
  }

  /** The next line of the input. */
  lemma NextLine(re: string, buf: array<char>, p: nat, q: nat, m: nat, input: string, at: nat)
    requires Holds(buf, p, m, input, at) && m < BUF && p <= q < m && buf[q] == '\n'
    requires forall k | p <= k < q :: buf[k] != '\n'
    ensures Selected(re, input, at) == (if Matches(re, buf[p..q]) then buf[p..q + 1] else []) + Selected(re, input,
      at + q + 1 - p)
  {
    assert Key(0, at);
    var e := at + q - p;
    assert input[e] == '\n';
    forall k | at <= k < e ensures input[k] != '\n' {
      assert buf[k - at + p] == input[k];
    }
    EolIs(input, at, e);
    assert buf[p..q] == input[at..e] && buf[p..q + 1] == input[at..e + 1];
  }

  lemma Appended(a: string, b: string, c: string)
    ensures a + (b + c) == (a + b) + c
  {}

  /** From `done` at place `at` on, the output has come to `out` at place `to`. */
  ghost predicate Wrote(re: string, input: string, at: nat, done: string, to: nat, out: string) {
    at <= |input| && to <= |input| &&
      forall k {:trigger Key(k, out)} | Key(k, out) :: out + Selected(re, input, to) == done + Selected(re, input, at)
  }

  lemma WroteMore(re: string, input: string, at: nat, done: string, mid: nat, part: string, to: nat, out: string)
    requires Wrote(re, input, at, done, mid, part) && Wrote(re, input, mid, part, to, out)
    ensures Wrote(re, input, at, done, to, out)
  {
    assert Key(0, part) && Key(0, out);
  }

  lemma WroteAll(re: string, input: string, to: nat, out: string)
    requires Wrote(re, input, 0, [], to, out) && Selected(re, input, to) == []
    ensures out == Selected(re, input, 0)
  {
    assert Key(0, out);
    assert out + [] == out && [] + Selected(re, input, 0) == Selected(re, input, 0);
  }

  /** Writes the lines of the buffer that match, and returns where the last of its lines ends. */
  method Lines(pattern: string, buf: array<char>, m: nat, ghost input: string, ghost at: nat, done: string)
    returns (p: nat, out: string)
    requires buf.Length == BUF && Holds(buf, 0, m, input, at) && buf[m] == NUL && NUL !in input
    modifies buf
    ensures Holds(buf, p, m, input, at + p) && forall k | p <= k < m :: buf[k] != '\n'
    ensures Wrote(pattern, input, at, done, at + p, out)
  {
    p, out := 0, done;
    while true
      invariant Holds(buf, p, m, input, at + p) && buf[m] == NUL
      invariant Wrote(pattern, input, at, done, at + p, out)
      decreases m - p
    {
      NoNul(buf, p, m, input, at + p);
      var q := Strchr(buf, p, m);
      if q == -1 {
        break;
      }
      ghost var out0 := out;
      out := NextOut(pattern, buf, p, q, m, input, at + p, at + q + 1, out);
      WroteMore(pattern, input, at, done, at + p, out0, at + q + 1, out);
      p := q + 1;
    }
  }

  /** One turn of the inner loop. */
  method NextOut(pattern: string, buf: array<char>, p: nat, q: nat, m: nat, ghost input: string, ghost at: nat,
                 ghost to: nat, done: string)
    returns (out: string)
    requires buf.Length == BUF && Holds(buf, p, m, input, at) && buf[m] == NUL && p <= q < m && buf[q] == '\n'
    requires NUL !in input
    requires to == at + q + 1 - p && forall k | p <= k < q :: buf[k] != '\n'
    modifies buf
    ensures Holds(buf, q + 1, m, input, to) && buf[m] == NUL && Wrote(pattern, input, at, done, to, out)
  {
    NoNul(buf, p, m, input, at);
    NextLine(pattern, buf, p, q, m, input, at);
    assert Same(buf, p, m, input, at) by {
      assert Key(0, at);
    }
    Appended(done, if Matches(pattern, buf[p..q]) then buf[p..q + 1] else [], Selected(pattern, input, to));
    out := Line(pattern, buf, p, q, done);
  }

  method ReadMore(buf: array<char>, m: nat, input: string, pos: nat, ghost at: nat) returns (n: nat)
    requires buf.Length == BUF && Holds(buf, 0, m, input, at) && at + m == pos <= |input|
    requires forall k | 0 <= k < m :: buf[k] != '\n'
    modifies buf
    ensures m + n < BUF && pos + n <= |input| && (n == 0 <==> m == BUF - 1 || pos == |input|)
    ensures Holds(buf, 0, m + n, input, at)
    ensures forall k | 0 <= k < m :: buf[k] != '\n'
  {
    assert Key(0, at);
    assert Same(buf, 0, m, input, at);
    n := ReadInto(buf, m, BUF - m - 1, input, pos);
  }

  method Shift(buf: array<char>, p: nat, m: nat, ghost input: string, ghost at: nat)
    requires Holds(buf, p, m, input, at) && forall k | p <= k < m :: buf[k] != '\n'
    modifies buf
    ensures Holds(buf, 0, m - p, input, at) && forall k | 0 <= k < m - p :: buf[k] != '\n'
  {
    assert Key(0, at);
    assert Same(buf, p, m, input, at);
    Memmove(buf, p, m - p);
  }

  method Terminate(buf: array<char>, m: nat, ghost input: string, ghost at: nat)
    requires Holds(buf, 0, m, input, at)
    modifies buf
    ensures Holds(buf, 0, m, input, at) && buf[m] == NUL
  {
    assert Key(0, at);
    assert Same(buf, 0, m, input, at);
    buf[m] := NUL;
  }

  /** grep(), on an input without NUL: however the reads come in, it writes the lines that match. */
  method Grep(pattern: string, input: string) returns (out: string)
    requires NUL !in input
    ensures out == Selected(pattern, input, 0)
  {
    var buf := new char[BUF](_ => NUL);
    out := [];
    var m: nat, pos: nat := 0, 0;
    ghost var at: nat := 0;
    while true
      invariant at + m == pos <= |input| && Holds(buf, 0, m, input, at)
      invariant forall k | 0 <= k < m :: buf[k] != '\n'
      invariant Wrote(pattern, input, 0, [], at, out)
      decreases |input| - pos
    {
      var n := ReadMore(buf, m, input, pos, at);
      if n == 0 {
        NoMore(pattern, buf, m, input, at);
        WroteAll(pattern, input, at, out);
        break;
      }
      m, pos := m + n, pos + n;
      Terminate(buf, m, input, at);
      var p;
      ghost var out0 := out;
      p, out := Lines(pattern, buf, m, input, at, out);
      WroteMore(pattern, input, 0, [], at, out0, at + p, out);
      Shift(buf, p, m, input, at + p);
      m, at := m - p, at + p;
    }
  }

  /** Nothing left to read, or no room: no line that fits is left. */
  lemma NoMore(re: string, buf: array<char>, m: nat, input: string, at: nat)
    requires buf.Length == BUF && Holds(buf, 0, m, input, at) && (at + m == |input| || m == BUF - 1)
    requires forall k | 0 <= k < m :: buf[k] != '\n'
    ensures Selected(re, input, at) == []
  {
    assert Key(0, at);
    var q := Eol(input, at);
    forall k | at <= k < at + m ensures input[k] != '\n' {
      assert buf[k - at] == input[k];
    }
  }

  /** read(): some of the input that is left, no more than asked for; nothing only at its end or when
      asked for nothing. */
  method ReadInto(buf: array<char>, at: nat, max: nat, input: string, pos: nat) returns (n: nat)
    requires at + max < buf.Length && pos <= |input|
    modifies buf
    ensures n <= max && pos + n <= |input| && (n == 0 <==> max == 0 || pos == |input|)
    ensures forall k | 0 <= k < at :: buf[k] == old(buf[k])
    ensures forall k | at <= k < at + n :: buf[k] == input[pos + k - at]
  {
    n := *;
    var left := |input| - pos;
    n := if max == 0 || left == 0 then 0 else if n < 1 then 1 else n;
    n := if n > max then max else n;
    n := if n > left then left else n;
    forall k | at <= k < at + n {
      buf[k] := input[pos + k - at];
    }
  }

  /** memmove(buf, buf + p, m) */
  method Memmove(buf: array<char>, p: nat, m: nat)
    requires p + m <= buf.Length
    modifies buf
    ensures forall k | 0 <= k < m :: buf[k] == old(buf[p + k])
  {
    forall k | 0 <= k < m {
      buf[k] := buf[p + k];
    }
  }

  // ---------------------------------------------------------------- what is missed

  /** A line of 1023 characters hides the matching line behind it. */
  method LosesLine() returns (input: string, out: string)
    ensures Stop(input, 0) == 0 && AllSelected("b", input, 0) == "b\n" && out == []
  {
    var long := seq(BUF - 1, _ => 'a');
    input := long + "\nb\n";
    out := Grep("b", input);
    EolIs(input, 0, BUF - 1);
    EolIs(input, BUF, BUF + 1);
    EolIs(input, BUF + 2, BUF + 2);
    assert input[0..BUF - 1] == long && input[BUF..BUF + 1] == "b" && input[BUF..BUF + 2] == "b\n";
    OnlyB(long);
    OnlyB("b");
    assert AllSelected("b", input, BUF) == "b\n" + AllSelected("b", input, BUF + 2) == "b\n";
  }

  /** A last line without newline is not written. */
  method LosesLast() returns (out: string)
    ensures AllMatching("b", "b", 0) == "b" && out == []
  {
    out := Grep("b", "b");
    EolIs("b", 0, 1);
    assert "b"[0..] == "b";
    OnlyB("b");
  }

  lemma OnlyB(text: string)
    ensures Matches("b", text) <==> 'b' in text
  {
    var p := Pattern([], false);
    assert "b"[1..] == "" && Parse("b") == Pattern([Lit('b')], false) == p.(items := [Lit('b')] + p.items);
    forall k | 0 <= k <= |text| ensures Begins(Parse("b"), text[k..]) <==> k < |text| && text[k] == 'b' {
      BeginsOne(Lit('b'), p, text[k..]);
      if k < |text| {
        assert text[k..][1..][..0] == "" && Begins(p, text[k..][1..]);
      }
    }
  }
}
