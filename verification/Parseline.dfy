/** parseline of tsh.c: a command line cut into arguments, in place. */
module Parseline {

  const MAXLINE := 1024
  const MAXARGS := 128
  const NUL := 0 as char

  // ---- what a line means ----------------------------------------------------------------------

  function Skip(s: string): (r: string)
    ensures |r| <= |s| && (r != "" ==> r[0] != ' ')
  {
    if s != "" && s[0] == ' ' then Skip(s[1..]) else s
  }

  /** strchr: where c is first, |s| if it is nowhere. */
  function Index(s: string, c: char): (i: nat)
    ensures i <= |s| && (i < |s| ==> s[i] == c)
    ensures forall k :: 0 <= k < i ==> s[k] != c
  {
    if s == "" || s[0] == c then 0 else 1 + Index(s[1..], c)
  }

  /** The arguments of a line: each runs to the next space, or to the closing quote if it starts with one; an
      argument without its end is dropped. */
  function Tokens(s: string): seq<string>
    decreases |s|
  {
    var t := Skip(s);
    if t != "" && t[0] == '\'' then
      var u := t[1..];
      var d := Index(u, '\'');
      if d < |u| then [u[..d]] + Tokens(u[d + 1..]) else []
    else
      var d := Index(t, ' ');
      if d < |t| then [t[..d]] + Tokens(t[d + 1..]) else []
  }

  /** A last argument that starts with & asks for the background, and is no argument; so does a blank line. */
  predicate InBackground(args: seq<string>) {
    args == [] || (args[|args| - 1] != "" && args[|args| - 1][0] == '&')
  }

  function Arguments(args: seq<string>): seq<string> {
    if args != [] && InBackground(args) then args[..|args| - 1] else args
  }

  /** The line as parseline works on it: its last character, the newline, is a space. */
  function Spaced(line: string): string requires line != "" { line[..|line| - 1] + " " }

  // ---- parsing in place -----------------------------------------------------------------------

  /** From p on, the buffer still holds the line t and its terminator. */
  ghost predicate Holds(mem: seq<char>, t: string, p: int) {
    && 0 <= p <= |t| < |mem| && mem[|t|] == NUL && NUL !in t
    && forall k :: p <= k < |t| ==> mem[k] == t[k]
  }

  method StrChr(buffer: array<char>, p: nat, c: char, ghost t: string) returns (d: nat, found: bool)
    requires Holds(buffer[..], t, p) && c != NUL
    ensures d == p + Index(t[p..], c) && found == (d < |t|)
  {
    d := p;
    while buffer[d] != c && buffer[d] != NUL
      invariant p <= d <= |t| && forall k :: p <= k < d ==> t[k] != c
      decreases |t| - d
    {
      d := d + 1;
    }
    found := buffer[d] == c;
    assert d < |t| ==> t[d] in t && buffer[d] == t[d];
    assert Index(t[p..], c) == d - p;
  }

  method SkipSpaces(buffer: array<char>, p: nat, ghost t: string) returns (q: nat)
    requires Holds(buffer[..], t, p)
    ensures p <= q <= |t| && t[q..] == Skip(t[p..])
  {
    q := p;
    while buffer[q] != NUL && buffer[q] == ' '
      invariant p <= q <= |t| && Skip(t[q..]) == Skip(t[p..])
      decreases |t| - q
    {
      assert buffer[q] == t[q] && t[q..][1..] == t[q + 1..];
      q := q + 1;
    }
    assert q < |t| ==> t[q] in t && buffer[q] == t[q];
  }

  lemma QuotedTokens(s: string, u: string)
    requires Skip(s) == "'" + u
    ensures Tokens(s) == var d := Index(u, '\''); if d < |u| then [u[..d]] + Tokens(u[d + 1..]) else []
  {
    hide Skip, Index;
    assert ("'" + u)[1..] == u;
  }

  lemma PlainTokens(s: string, t: string)
    requires Skip(s) == t && (t == "" || t[0] != '\'')
    ensures Tokens(s) == var d := Index(t, ' '); if d < |t| then [t[..d]] + Tokens(t[d + 1..]) else []
  {
    hide Skip, Index;
  }

  lemma Slices(t: string, q: nat, d: nat)
    requires q + d < |t|
    ensures t[q..][..d] == t[q..q + d] && t[q..][d + 1..] == t[q + d + 1..]
  {
  }

  /** The tokens from p on, once the spaces are skipped and the end is found. */
  lemma TokensFrom(t: string, p: nat, q: nat)
    requires p <= q <= |t| && t[q..] == Skip(t[p..])
    ensures
      if q < |t| && t[q] == '\'' then
        var d := q + 1 + Index(t[q + 1..], '\'');
        Tokens(t[p..]) == if d < |t| then [t[q + 1..d]] + Tokens(t[d + 1..]) else []
      else
        var d := q + Index(t[q..], ' ');
        Tokens(t[p..]) == if d < |t| then [t[q..d]] + Tokens(t[d + 1..]) else []
  {
    hide Skip, Index, Tokens;
    if q < |t| && t[q] == '\'' {
      assert t[q..] == "'" + t[q + 1..];
      QuotedTokens(t[p..], t[q + 1..]);
      if q + 1 + Index(t[q + 1..], '\'') < |t| { Slices(t, q + 1, Index(t[q + 1..], '\'')); }
    } else {
      PlainTokens(t[p..], t[q..]);
      if q + Index(t[q..], ' ') < |t| { Slices(t, q, Index(t[q..], ' ')); }
    }
  }

  /** The arguments not yet written, once the next one is found or known to be missing. */
  ghost predicate ToCome(t: string, buf: nat, delim: nat, found: bool, rest: seq<string>) {
    if found then buf <= delim < |t| && rest == [t[buf..delim]] + Tokens(t[delim + 1..]) else rest == []
  }

  /** The arguments written so far are the first tokens of the line. */
  ghost predicate Progress(t: string, args: seq<string>, buf: nat, delim: nat, found: bool) {
    if found then buf <= delim < |t| && Tokens(t) == args + [t[buf..delim]] + Tokens(t[delim + 1..]) else Tokens(t) == args
  }

  lemma ProgressStarts(t: string, buf: nat, delim: nat, found: bool)
    requires ToCome(t, buf, delim, found, Tokens(t[0..]))
    ensures Progress(t, [], buf, delim, found)
  {
    hide Tokens;
    assert t[0..] == t;
    assert found ==> [] + [t[buf..delim]] + Tokens(t[delim + 1..]) == Tokens(t);
  }

  lemma ProgressGoes(t: string, args: seq<string>, buf: nat, delim: nat, start: nat, end: nat, found: bool)
    requires Progress(t, args, buf, delim, true) && ToCome(t, start, end, found, Tokens(t[delim + 1..]))
    ensures Progress(t, args + [t[buf..delim]], start, end, found)
  {
  }

  lemma ProgressIs(t: string, args: seq<string>, buf: nat, delim: nat, found: bool)
    requires Progress(t, args, buf, delim, found)
    ensures if found then |Tokens(t)| > |args| && buf <= delim < |t| else Tokens(t) == args
  {
  }

  /** Skip the spaces, and find the end of the argument that follows them. */
  method FindDelim(buffer: array<char>, p: nat, ghost t: string) returns (buf: nat, delim: nat, found: bool)
    requires Holds(buffer[..], t, p)
    ensures p <= buf <= delim && (found ==> delim < |t|)
    ensures ToCome(t, buf, delim, found, Tokens(t[p..]))
  {
    hide Skip, Index, Tokens;
    buf := SkipSpaces(buffer, p, t);
    TokensFrom(t, p, buf);
    assert buf < |t| ==> t[buf] == buffer[buf];
    if buffer[buf] == '\'' {
      buf := buf + 1;
      delim, found := StrChr(buffer, buf, '\'', t);
    } else {
      delim, found := StrChr(buffer, buf, ' ', t);
    }
  }

  /** The C string at p. */
  ghost predicate StringAt(mem: seq<char>, p: int, s: string) {
    0 <= p && p + |s| < |mem| && mem[p..p + |s|] == s && mem[p + |s|] == NUL && NUL !in s
  }

  /** The first pointers of argv are the given strings, all before end. */
  ghost predicate Vector(mem: seq<char>, argv: seq<int>, args: seq<string>, end: int) {
    && |args| <= |argv|
    && forall k :: 0 <= k < |args| ==> StringAt(mem, argv[k], args[k]) && argv[k] + |args[k]| < end
  }

  const NULL := -1

  /** What parseline leaves behind: a NULL-terminated vector of C strings in the buffer. */
  ghost predicate Parsed(mem: seq<char>, argv: seq<int>, args: seq<string>) {
    |args| < |argv| && argv[|args|] == NULL && Vector(mem, argv, args, |mem|)
  }

  lemma VectorGrows(mem: seq<char>, argv: seq<int>, args: seq<string>, t: string, buf: nat, delim: nat)
    requires |args| < |argv| && Holds(mem, t, buf) && buf <= delim < |t| && Vector(mem, argv, args, buf)
    ensures Vector(mem[delim := NUL], argv[|args| := buf], args + [t[buf..delim]], delim + 1)
    ensures Holds(mem[delim := NUL], t, delim + 1)
  {
  }

  /** strcpy, and the newline overwritten. */
  method Load(buffer: array<char>, cmdline: string)
    requires buffer.Length == MAXLINE && 0 < |cmdline| < MAXLINE && NUL !in cmdline
    modifies buffer
    ensures Holds(buffer[..], Spaced(cmdline), 0)
  {
    var i := 0;
    while i < |cmdline|
      invariant 0 <= i <= |cmdline| && forall k :: 0 <= k < i ==> buffer[k] == cmdline[k]
    {
      buffer[i] := cmdline[i];
      i := i + 1;
    }
    buffer[i] := NUL;
    buffer[|cmdline| - 1] := ' ';
  }

  lemma Later(mem: seq<char>, argv: seq<int>, args: seq<string>, t: string, p: nat, q: nat)
    requires Holds(mem, t, p) && p <= q <= |t| && Vector(mem, argv, args, p)
    ensures Holds(mem, t, q) && Vector(mem, argv, args, q)
  {
  }

  /** The NULL at the end, and the & taken off. */
  lemma Ends(mem: seq<char>, argv: seq<int>, args: seq<string>)
    requires Vector(mem, argv, args, |mem|) && |args| < |argv|
    ensures Parsed(mem, argv[|args| := NULL], args)
    ensures args != [] ==> Parsed(mem, argv[|args| := NULL][|args| - 1 := NULL], args[..|args| - 1])
    ensures args != [] ==> 0 <= argv[|args| - 1] < |mem| && (mem[argv[|args| - 1]] == '&' <==> InBackground(args))
  {
  }

  method PutArgument(buffer: array<char>, argv: array<int>, argc: nat, buf: nat, delim: nat, ghost args: seq<string>, ghost t: string)
    requires buffer.Length == MAXLINE && argc == |args| < argv.Length && buf <= delim < |t|
    requires Holds(buffer[..], t, buf) && Vector(buffer[..], argv[..], args, buf)
    modifies buffer, argv
    ensures Holds(buffer[..], t, delim + 1)
    ensures Vector(buffer[..], argv[..], args + [t[buf..delim]], delim + 1) && Vector(buffer[..], argv[..], args + [t[buf..delim]], MAXLINE)
  {
    VectorGrows(buffer[..], argv[..], args, t, buf, delim);
    hide Vector, Holds;
    ghost var mem, v := buffer[..], argv[..];
    argv[argc] := buf;
    buffer[delim] := NUL;
    assert buffer[..] == mem[delim := NUL] && argv[..] == v[argc := buf];
  }

  method EndArguments(buffer: array<char>, argv: array<int>, argc: nat, ghost args: seq<string>) returns (bg: bool)
    requires buffer.Length == MAXLINE && argc == |args| < argv.Length && Vector(buffer[..], argv[..], args, MAXLINE)
    modifies argv
    ensures bg == InBackground(args) && Parsed(buffer[..], argv[..], Arguments(args))
  {
    Ends(buffer[..], argv[..], args);
    hide Vector, Parsed;
    ghost var v := argv[..];
    argv[argc] := NULL;
    assert argv[..] == v[argc := NULL];
    if argc == 0 { return true; }
    bg := buffer[argv[argc - 1]] == '&';
    if bg {
      argv[argc - 1] := NULL;
      assert argv[..] == v[argc := NULL][argc - 1 := NULL];
    }
  }

  /** Before a round of the loop: the arguments so far are in place, and the next one is found or missing. */
  ghost predicate Cutting(mem: seq<char>, argv: seq<int>, t: string, args: seq<string>, buf: nat, delim: nat, found: bool) {
    && Progress(t, args, buf, delim, found) && Vector(mem, argv, args, |mem|)
    && (found ==> buf <= delim < |t| && Holds(mem, t, buf) && Vector(mem, argv, args, buf))
  }

  method FirstArgument(buffer: array<char>, ghost argv: seq<int>, ghost t: string) returns (buf: nat, delim: nat, found: bool)
    requires buffer.Length == MAXLINE && Holds(buffer[..], t, 0)
    ensures Cutting(buffer[..], argv, t, [], buf, delim, found)
  {
    assert Vector(buffer[..], argv, [], 0);
    hide Tokens, Vector, Holds, ToCome, Progress;
    buf, delim, found := FindDelim(buffer, 0, t);
    ProgressStarts(t, buf, delim, found);
    ProgressIs(t, [], buf, delim, found);
    if found { Later(buffer[..], argv, [], t, 0, buf); }
  }

  method NextArgument(buffer: array<char>, argv: array<int>, argc: nat, buf0: nat, delim0: nat, ghost args: seq<string>, ghost t: string)
    returns (buf: nat, delim: nat, found: bool)
    requires buffer.Length == MAXLINE && argc == |args| < argv.Length && Cutting(buffer[..], argv[..], t, args, buf0, delim0, true)
    modifies buffer, argv
    ensures Cutting(buffer[..], argv[..], t, args + [t[buf0..delim0]], buf, delim, found) && (found ==> delim0 < delim)
  {
    hide Tokens, Vector, Holds, ToCome, Progress;
    PutArgument(buffer, argv, argc, buf0, delim0, args, t);
    buf, delim, found := FindDelim(buffer, delim0 + 1, t);
    ghost var more := args + [t[buf0..delim0]];
    ProgressGoes(t, args, buf0, delim0, buf, delim, found);
    ProgressIs(t, more, buf, delim, found);
    if found { Later(buffer[..], argv[..], more, t, delim0 + 1, buf); }
  }

  lemma CuttingIs(mem: seq<char>, argv: seq<int>, t: string, args: seq<string>, buf: nat, delim: nat, found: bool)
    requires Cutting(mem, argv, t, args, buf, delim, found)
    ensures if found then |Tokens(t)| > |args| && buf <= delim < |t| else Tokens(t) == args && Vector(mem, argv, args, |mem|)
  {
    ProgressIs(t, args, buf, delim, found);
  }

  /** The loop over the arguments. Writing the 129th pointer is out of bounds; the model stops there. */
  method CutArguments(buffer: array<char>, argv: array<int>, ghost t: string) returns (overflow: bool, argc: nat)
    requires buffer.Length == MAXLINE && argv.Length == MAXARGS && Holds(buffer[..], t, 0)
    modifies buffer, argv
    ensures overflow == (|Tokens(t)| >= MAXARGS)
    ensures !overflow ==> argc == |Tokens(t)| && Vector(buffer[..], argv[..], Tokens(t), MAXLINE)
  {
    hide *;
    ghost var args: seq<string> := [];
    argc := 0;
    var buf, delim, found := FirstArgument(buffer, argv[..], t);
    while found && argc < MAXARGS
      invariant argc == |args| <= MAXARGS && Cutting(buffer[..], argv[..], t, args, buf, delim, found)
      decreases MAXARGS - argc
    {
      CuttingIs(buffer[..], argv[..], t, args, buf, delim, found);
      ghost var arg := t[buf..delim];
      buf, delim, found := NextArgument(buffer, argv, argc, buf, delim, args, t);
      argc := argc + 1;
      args := args + [arg];
    }
    CuttingIs(buffer[..], argv[..], t, args, buf, delim, found);
    overflow := argc == MAXARGS;
  }

  method ParseLine(buffer: array<char>, argv: array<int>, cmdline: string) returns (overflow: bool, bg: bool)
    requires buffer.Length == MAXLINE && argv.Length == MAXARGS
    requires 0 < |cmdline| < MAXLINE && NUL !in cmdline
    modifies buffer, argv
    ensures overflow == (|Tokens(Spaced(cmdline))| >= MAXARGS)
    ensures !overflow ==> bg == InBackground(Tokens(Spaced(cmdline)))
    ensures !overflow ==> Parsed(buffer[..], argv[..], Arguments(Tokens(Spaced(cmdline))))
  {
    hide Tokens, Vector, Holds, Parsed, InBackground, Arguments;
    Load(buffer, cmdline);
    var argc: nat;
    overflow, argc := CutArguments(buffer, argv, Spaced(cmdline));
    bg := false;
    if !overflow { bg := EndArguments(buffer, argv, argc, Tokens(Spaced(cmdline))); }
  }

  // ---- printing and parsing -------------------------------------------------------------------

  datatype Arg = Plain(text: string) | Quoted(text: string)

  /** What can be written down: a plain argument has no space and starts with no quote; a quoted one has no quote. */
  predicate Writable(a: Arg) {
    match a
    case Plain(s) => s != "" && ' ' !in s && s[0] != '\''
    case Quoted(s) => '\'' !in s
  }

  function Written(a: Arg): string {
    match a
    case Plain(s) => s
    case Quoted(s) => "'" + s + "'"
  }

  function Spaces(n: nat): string {
    if n == 0 then "" else " " + Spaces(n - 1)
  }

  /** The arguments, each followed by its number of spaces. */
  function Printed(args: seq<Arg>, gaps: seq<nat>): string
    requires |gaps| == |args|
  {
    if args == [] then "" else Written(args[0]) + Spaces(gaps[0]) + Printed(args[1..], gaps[1..])
  }

  /** Arguments that can be told apart: a space follows each plain one but the last; a closing quote needs none. */
  ghost predicate Separable(args: seq<Arg>, gaps: seq<nat>) {
    && |gaps| == |args| && (forall i :: 0 <= i < |args| ==> Writable(args[i]))
    && (forall i :: 0 <= i < |args| - 1 ==> gaps[i] >= 1 || args[i].Quoted?)
  }

  /** A command line: the arguments, and a newline at the end. */
  ghost predicate LineOf(line: string, lead: nat, args: seq<Arg>, gaps: seq<nat>) {
    Separable(args, gaps) && line == Spaces(lead) + Printed(args, gaps) + "\n"
  }

  /** One that ends in an argument whose quote is never closed. */
  ghost predicate UnclosedLineOf(line: string, lead: nat, args: seq<Arg>, gaps: seq<nat>, rest: string) {
    && Separable(args, gaps) && '\'' !in rest && (args != [] ==> gaps[|args| - 1] >= 1 || args[|args| - 1].Quoted?)
    && line == Spaces(lead) + Printed(args, gaps) + "'" + rest + "\n"
  }

  function Texts(args: seq<Arg>): seq<string> {
    if args == [] then [] else [args[0].text] + Texts(args[1..])
  }

  lemma {:induction false} SpacesSkip(n: nat, s: string)
    ensures Tokens(Spaces(n) + s) == Tokens(s)
  {
    SkipSkips(n, s);
    hide Skip, Index;
  }

  lemma SkipOne(s: string)
    ensures Skip(" " + s) == Skip(s)
  {
  }

  lemma {:induction false} SkipSkips(n: nat, s: string)
    ensures Skip(Spaces(n) + s) == Skip(s)
  {
    hide Skip;
    if n == 0 {
      assert Spaces(n) + s == s;
    } else {
      assert Spaces(n) + s == " " + (Spaces(n - 1) + s);
      SkipOne(Spaces(n - 1) + s);
      SkipSkips(n - 1, s);
    }
  }

  lemma IndexAfter(w: string, c: char, s: string)
    requires c !in w && s != "" && s[0] == c
    ensures Index(w + s, c) == |w|
  {
    hide Index;
    var t := w + s;
    assert forall k :: 0 <= k < |w| ==> t[k] == w[k] && w[k] in w;
    assert t[|w|] == c;
  }

  lemma SkipNone(t: string)
    requires t != "" && t[0] != ' '
    ensures Skip(t) == t
  {
  }

  lemma SpaceToken(s: string)
    ensures Tokens(" " + s) == Tokens(s)
  {
    SkipOne(s);
    hide Skip, Index;
  }

  lemma PlainFirst(w: string, s: string)
    requires Writable(Plain(w)) && s != "" && s[0] == ' '
    ensures Tokens(w + s) == [w] + Tokens(s)
  {
    var t := w + s;
    assert s == " " + s[1..];
    hide Skip, Index, Tokens;
    SpaceToken(s[1..]);
    SkipNone(t);
    PlainTokens(t, t);
    IndexAfter(w, ' ', s);
    assert t[..|w|] == w && t[|w| + 1..] == s[1..];
  }

  lemma QuotedFirst(w: string, s: string)
    requires Writable(Quoted(w))
    ensures Tokens("'" + w + "'" + s) == [w] + Tokens(s)
  {
    var u := w + ("'" + s);
    hide Skip, Index, Tokens;
    assert "'" + w + "'" + s == "'" + u;
    SkipNone("'" + u);
    QuotedTokens("'" + u, u);
    IndexAfter(w, '\'', "'" + s);
    assert u[..|w|] == w;
    assert u[|w| + 1..] == s;
  }

  /** An argument before a space is the first token; a quoted one needs no space. */
  lemma FirstToken(a: Arg, s: string)
    requires Writable(a) && (a.Quoted? || (s != "" && s[0] == ' '))
    ensures Tokens(Written(a) + s) == [a.text] + Tokens(s)
  {
    hide Tokens;
    match a
    case Plain(w) => PlainFirst(w, s);
    case Quoted(w) => QuotedFirst(w, s);
  }

  lemma NoTokens()
    ensures Tokens("") == []
  {
  }

  lemma {:induction false} TokensOfPrinted(args: seq<Arg>, gaps: seq<nat>, tail: string)
    requires Separable(args, gaps)
    requires args != [] ==> gaps[|args| - 1] >= 1 || args[|args| - 1].Quoted? || (tail != "" && tail[0] == ' ')
    ensures Tokens(Printed(args, gaps) + tail) == Texts(args) + Tokens(tail)
  {
    hide Tokens, Written, Writable;
    if args == [] {
      assert Printed(args, gaps) + tail == tail;
    } else {
      var rest := Printed(args[1..], gaps[1..]) + tail;
      TokensOfPrinted(args[1..], gaps[1..], tail);
      var s := Spaces(gaps[0]) + rest;
      assert Printed(args, gaps) + tail == Written(args[0]) + s;
      assert args[0].Quoted? || (s != "" && s[0] == ' ') by { if gaps[0] == 0 { assert args[0].Quoted? || (args[1..] == [] && rest == tail); } }
      FirstToken(args[0], s);
      SpacesSkip(gaps[0], rest);
    }
  }

  /** Parsing inverts printing. */
  lemma ParseInvertsPrint(line: string, lead: nat, args: seq<Arg>, gaps: seq<nat>)
    requires LineOf(line, lead, args, gaps)
    ensures Tokens(Spaced(line)) == Texts(args)
  {
    assert Spaced(line) == Spaces(lead) + (Printed(args, gaps) + " ");
    SpacesSkip(lead, Printed(args, gaps) + " ");
    TokensOfPrinted(args, gaps, " ");
    assert " " + "" == " ";
    SpaceToken("");
    NoTokens();
    hide Tokens;
  }

  lemma UnclosedTail(args: seq<Arg>, gaps: seq<nat>, rest: string)
    requires Separable(args, gaps) && '\'' !in rest && (args != [] ==> gaps[|args| - 1] >= 1 || args[|args| - 1].Quoted?)
    ensures Tokens(Printed(args, gaps) + ("'" + rest)) == Texts(args)
  {
    TokensOfPrinted(args, gaps, "'" + rest);
    hide *;
  }

  lemma SpacedOf(line: string, x: string)
    requires line != ""
    ensures line == x + "\n" ==> Spaced(line) == x + " "
    ensures Spaced(line) == x + " " && line[|line| - 1] == '\n' ==> line == x + "\n"
  {
    if Spaced(line) == x + " " { assert line[..|line| - 1] == Spaced(line)[..|line| - 1] == (x + " ")[..|x|] == x; }
  }

  lemma Regroup(a: string, b: string, c: string, d: string, e: string)
    ensures a + b + c + d + e == a + (b + (c + (d + e)))
  {
  }

  /** And an argument whose quote is never closed is dropped, with all that follows. */
  lemma UnclosedIsDropped(line: string, lead: nat, args: seq<Arg>, gaps: seq<nat>, rest: string)
    requires UnclosedLineOf(line, lead, args, gaps, rest)
    ensures Tokens(Spaced(line)) == Texts(args)
  {
    var open := rest + " ";
    assert '\'' !in open by { forall k | 0 <= k < |open| ensures open[k] != '\'' { if k < |rest| { assert rest[k] in rest; } } }
    UnclosedTail(args, gaps, open);
    hide *;
    SpacedOf(line, Spaces(lead) + Printed(args, gaps) + "'" + rest);
    Regroup(Spaces(lead), Printed(args, gaps), "'", rest, " ");
    SpacesSkip(lead, Printed(args, gaps) + ("'" + open));
  }

  /** The end of a line: its last space, or an argument whose quote is never closed. */
  predicate Tail(tail: string) { tail == " " || (tail != "" && tail[0] == '\'' && '\'' !in tail[1..]) }

  ghost predicate MadeOf(s: string, lead: nat, args: seq<Arg>, gaps: seq<nat>, tail: string) {
    && Separable(args, gaps) && Tail(tail) && s == Spaces(lead) + (Printed(args, gaps) + tail)
    && (args != [] && tail != " " ==> gaps[|args| - 1] >= 1 || args[|args| - 1].Quoted?)
  }

  lemma MoreSpace(s: string, lead: nat, args: seq<Arg>, gaps: seq<nat>, tail: string)
    requires MadeOf(s, lead, args, gaps, tail)
    ensures MadeOf(" " + s, lead + 1, args, gaps, tail)
  {
    assert Spaces(lead + 1) == " " + Spaces(lead);
    var end := Printed(args, gaps) + tail;
    assert " " + (Spaces(lead) + end) == " " + Spaces(lead) + end by { hide *; }
    hide Printed, Separable, Tail, Spaces, Writable;
  }

  lemma MoreSeparable(a: Arg, lead: nat, args: seq<Arg>, gaps: seq<nat>)
    requires Separable(args, gaps) && Writable(a) && (a.Quoted? || lead >= 1)
    ensures Separable([a] + args, [lead] + gaps)
    ensures Printed([a] + args, [lead] + gaps) == Written(a) + Spaces(lead) + Printed(args, gaps)
  {
    hide Writable, Printed, Written, Spaces;
    var more, wider := [a] + args, [lead] + gaps;
    assert more[1..] == args && wider[1..] == gaps;
    PrintedStep(more, wider);
  }

  lemma PrintedStep(args: seq<Arg>, gaps: seq<nat>)
    requires |gaps| == |args| > 0
    ensures Printed(args, gaps) == Written(args[0]) + Spaces(gaps[0]) + Printed(args[1..], gaps[1..])
  {
  }

  lemma Front(a: string, b: string, c: string, d: string)
    ensures a + (b + (c + d)) == "" + (a + b + c + d)
  {
  }

  lemma MoreArgument(a: Arg, s: string, lead: nat, args: seq<Arg>, gaps: seq<nat>, tail: string)
    requires MadeOf(s, lead, args, gaps, tail) && Writable(a) && (a.Quoted? || lead >= 1)
    ensures MadeOf(Written(a) + s, 0, [a] + args, [lead] + gaps, tail)
  {
    MoreSeparable(a, lead, args, gaps);
    Front(Written(a), Spaces(lead), Printed(args, gaps), tail);
    assert Spaces(0) == "";
    assert [a] + args != [] && ([a] + args)[|args|] == (if args == [] then a else args[|args| - 1]);
    assert ([lead] + gaps)[|args|] == if args == [] then lead else gaps[|args| - 1];
    hide Spaces, Printed, Written, Writable, Tail, Separable;
  }

  lemma LastArgument(w: string)
    requires Writable(Plain(w))
    ensures MadeOf(w + " ", 0, [Plain(w)], [0], " ")
  {
    assert Printed([Plain(w)], [0]) == w;
  }

  lemma JustTail(tail: string)
    requires Tail(tail)
    ensures MadeOf(tail, 0, [], [], tail)
  {
  }

  /** Every text with a space at its end is arguments, spaces and such an end. */
  lemma {:induction false} EveryText(s: string) returns (lead: nat, args: seq<Arg>, gaps: seq<nat>, tail: string)
    requires s != "" && s[|s| - 1] == ' '
    ensures MadeOf(s, lead, args, gaps, tail) && (s[0] == ' ' && s != " " ==> lead >= 1)
    decreases |s|
  {
    lead, args, gaps, tail := 0, [], [], s;
    hide MadeOf, Written;
    if s == " " {
      JustTail(s);
    } else if s[0] == ' ' {
      lead, args, gaps, tail := EveryText(s[1..]);
      MoreSpace(s[1..], lead, args, gaps, tail);
      assert " " + s[1..] == s;
      lead := lead + 1;
    } else if s[0] == '\'' {
      var u := s[1..];
      var d := Index(u, '\'');
      if d == |u| {
        JustTail(s);
      } else {
        assert u[d + 1..] != "" && u[d + 1..][|u[d + 1..]| - 1] == ' ';
        lead, args, gaps, tail := EveryText(u[d + 1..]);
        MoreArgument(Quoted(u[..d]), u[d + 1..], lead, args, gaps, tail);
        assert Written(Quoted(u[..d])) + u[d + 1..] == s by { QuotedText(s, u, d); }
        lead, args, gaps := 0, [Quoted(u[..d])] + args, [lead] + gaps;
      }
    } else {
      var d := Index(s, ' ');
      assert d < |s| by { assert s[|s| - 1] == ' '; }
      var w := s[..d];
      assert Writable(Plain(w)) && s == w + s[d..];
      if s[d..] == " " {
        LastArgument(w);
        lead, args, gaps, tail := 0, [Plain(w)], [0], " ";
      } else {
        lead, args, gaps, tail := EveryText(s[d..]);
        MoreArgument(Plain(w), s[d..], lead, args, gaps, tail);
        assert Written(Plain(w)) == w by { PlainText(w); }
        lead, args, gaps := 0, [Plain(w)] + args, [lead] + gaps;
      }
    }
  }

  lemma QuotedText(s: string, u: string, d: nat)
    requires s != "" && s[0] == '\'' && u == s[1..] && d < |u| && u[d] == '\''
    ensures Written(Quoted(u[..d])) + u[d + 1..] == s
  {
    assert u == u[..d] + "'" + u[d + 1..];
  }

  lemma PlainText(w: string)
    ensures Written(Plain(w)) == w
  {
  }

  /** So every line with a newline at its end is of one of the two kinds, and its tokens are known. */
  lemma EveryLine(line: string) returns (lead: nat, args: seq<Arg>, gaps: seq<nat>, rest: string)
    requires line != "" && line[|line| - 1] == '\n'
    ensures LineOf(line, lead, args, gaps) || UnclosedLineOf(line, lead, args, gaps, rest)
    ensures Tokens(Spaced(line)) == Texts(args)
  {
    var tail;
    lead, args, gaps, tail := EveryText(Spaced(line));
    var before := Spaces(lead) + Printed(args, gaps);
    assert Spaced(line) == before + tail;
    hide Tokens, Printed, Texts, Spaces, Separable;
    rest := "";
    if tail == " " {
      SpacedOf(line, before);
      hide Spaced;
      ParseInvertsPrint(line, lead, args, gaps);
    } else {
      assert tail[|tail| - 1] == (before + tail)[|before + tail| - 1] == ' ' && |tail| > 1;
      rest := tail[1..|tail| - 1];
      assert tail == "'" + rest + " ";
      assert before + tail == before + "'" + rest + " ";
      SpacedOf(line, before + "'" + rest);
      hide Spaced;
      UnclosedIsDropped(line, lead, args, gaps, rest);
    }
  }

  /** On a line printed from fewer than MAXARGS arguments, parseline leaves exactly them in argv; but a last one
      that starts with & is left out, and reported as a request for the background. */
  method ParsePrinted(buffer: array<char>, argv: array<int>, line: string, ghost lead: nat, ghost args: seq<Arg>, ghost gaps: seq<nat>)
    returns (bg: bool)
    requires buffer.Length == MAXLINE && argv.Length == MAXARGS
    requires LineOf(line, lead, args, gaps) && |line| < MAXLINE && NUL !in line && 0 < |args| < MAXARGS
    modifies buffer, argv
    ensures bg <==> (args[|args| - 1].text != "" && args[|args| - 1].text[0] == '&')
    ensures Parsed(buffer[..], argv[..], if bg then Texts(args[..|args| - 1]) else Texts(args))
  {
    ParseInvertsPrint(line, lead, args, gaps);
    TextsAre(args);
    TextsAre(args[..|args| - 1]);
    assert Texts(args)[..|args| - 1] == Texts(args[..|args| - 1]);
    hide Tokens, Texts, Parsed;
    var overflow: bool;
    overflow, bg := ParseLine(buffer, argv, line);
  }

  lemma {:induction false} TextsAre(args: seq<Arg>)
    ensures |Texts(args)| == |args| && forall i :: 0 <= i < |args| ==> Texts(args)[i] == args[i].text
  {
    if args != [] { TextsAre(args[1..]); }
  }

  // ---- lines that name no command -------------------------------------------------------------

  /** Skipping spaces leaves an end of the line. */
  lemma {:induction false} SkipIsEnd(s: string)
    ensures Skip(s) == s[|s| - |Skip(s)|..]
  {
    if s != "" && s[0] == ' ' {
      SkipIsEnd(s[1..]);
      assert s[1..][|s| - 1 - |Skip(s[1..])|..] == s[|s| - |Skip(s)|..];
    }
  }

  /** A line has no tokens exactly if it is blank, or begins with a quote that is never closed. */
  lemma NoTokensIff(line: string)
    requires line != ""
    ensures var r := Skip(Spaced(line)); Tokens(Spaced(line)) == [] <==> r == "" || (r[0] == '\'' && '\'' !in r[1..])
  {
    var t := Spaced(line);
    var r := Skip(t);
    SkipIsEnd(t);
    hide Skip, Index, Tokens;
    if r != "" && r[0] == '\'' {
      assert r == "'" + r[1..];
      QuotedTokens(t, r[1..]);
    } else {
      PlainTokens(t, r);
      if r != "" { assert r[|r| - 1] == t[|t| - 1] == ' '; }
    }
  }

  /** parseline leaves argv[0] NULL exactly for a line without tokens, and for one whose only token asks for the
      background. */
  lemma NoArgumentsIff(line: string)
    requires line != ""
    ensures var ts := Tokens(Spaced(line));
      Arguments(ts) == [] <==> ts == [] || (|ts| == 1 && ts[0] != "" && ts[0][0] == '&')
  {
    hide Tokens, Spaced;
  }
}
