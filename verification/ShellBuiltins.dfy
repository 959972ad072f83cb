/** What the built-in commands of tsh.c do, from the words of the line to the entries of the job list. */
module ShellBuiltins {
  import opened JobTable
  import opened Shell
  import P = Parseline

  /** A line that fgets can return. */
  predicate Typable(line: string) { 0 < |line| < P.MAXLINE && P.NUL !in line }

  /** The words of a line, quotes and a trailing & included. */
  function Words(line: string): seq<string> requires line != "" { P.Tokens(P.Spaced(line)) }

  predicate Digits(s: string) { forall c :: c in s ==> Digit(c) }

  /** How %d prints a number. */
  function Decimal(n: nat): string {
    if n < 10 then [('0' as int + n) as char] else Decimal(n / 10) + [('0' as int + n % 10) as char]
  }

  /** What is printed as the number of a job or process is read back as that number. */
  lemma {:induction false} NumberOfDecimal(n: nat)
    ensures Digits(Decimal(n)) && Number(Decimal(n)) == n
  {
    if n < 10 {
      assert Decimal(n)[..0] == "";
    } else {
      NumberOfDecimal(n / 10);
      assert Decimal(n)[..|Decimal(n)| - 1] == Decimal(n / 10);
    }
  }

  // ---- free entries have no number ------------------------------------------------------------

  /** An entry has a job number exactly if it has a process. */
  ghost predicate Tidy(t: Table) {
    t.nextjid >= 1 && forall i :: 0 <= i < |t.jobs| ==> (t.jobs[i].pid == 0 <==> t.jobs[i].jid == 0)
  }

  lemma SetTidy(t: Table, i: nat, x: State)
    requires Tidy(t) && i < |t.jobs|
    ensures Tidy(Set(t, i, x))
  {
  }

  lemma HandleTidy(s: Sim)
    requires s.handler.Got? && Tidy(s.table)
    ensures Tidy(Handled(s).table)
  {
    if Listed(s.table.jobs, s.handler.p) { SetTidy(s.table, Slot(s.table.jobs, s.handler.p), St); }
    hide Tidy, Deleted, Set;
  }

  lemma StepTidy(s: Sim, a: Step)
    requires Inv(s) && Readable(s) && Enabled(s, a, true) && Tidy(s.table)
    ensures Tidy(Next(s, a).table)
  {
    assert s.main.Adding? ==> s.main.p in s.kids && 0 !in s.kids;
    hide Inv, Tidy, Gone, Handled, CommandOf, Readable;
    if a.Handle? { HandleTidy(s); }
  }

  lemma {:induction false} RunTidy(s: Sim, steps: seq<Step>, t: Sim)
    requires Inv(s) && Tidy(s.table) && Leads(s, steps, t, true)
    ensures Inv(t) && Tidy(t.table)
    decreases |steps|
  {
    hide Inv, Readable, Next, Enabled, Tidy;
    if steps != [] {
      StepKeeps(s, steps[0]);
      StepTidy(s, steps[0]);
      RunTidy(Next(s, steps[0]), steps[1..], t);
    }
  }

  ghost predicate Reached(steps: seq<Step>, t: Sim) { Leads(Start(), steps, t, true) }

  lemma ReachedTidy(steps: seq<Step>, t: Sim)
    requires Reached(steps, t)
    ensures Inv(t) && Readable(t) && Tidy(t.table)
  {
    hide Leads;
    StartOk();
    RunTidy(Start(), steps, t);
    InvReadable(t);
  }

  /** The same steps from the same state always end alike. */
  lemma {:induction false} OneEnd(s: Sim, steps: seq<Step>, t: Sim, u: Sim)
    requires Inv(s) && Leads(s, steps, t, true) && Leads(s, steps, u, true)
    ensures t == u
    decreases |steps|
  {
    hide Inv, Readable, Next, Enabled;
    if steps != [] {
      StepKeeps(s, steps[0]);
      OneEnd(Next(s, steps[0]), steps[1..], t, u);
    }
  }

  // ---- fg and bg ------------------------------------------------------------------------------

  /** Entry i is in state x, and nothing else in the table has changed. */
  ghost predicate NowIn(t: Table, u: Table, i: nat, x: State) {
    && i < |t.jobs| == |u.jobs| && u.nextjid == t.nextjid
    && u.jobs[i] == Job(t.jobs[i].pid, t.jobs[i].jid, x, t.jobs[i].cmdline)
    && forall k :: 0 <= k < |t.jobs| && k != i ==> u.jobs[k] == t.jobs[k]
  }

  /** The shell stands at the prompt, outside the handler. */
  predicate AtPrompt(s: Sim) { s.main.Prompt? && s.handler.Out? }

  lemma Then(steps: seq<Step>, t: Sim, a: Step) returns (u: Sim)
    requires Reached(steps, t) && Enabled(t, a, true)
    ensures Readable(t) && u == Next(t, a) && Reached(steps + [a], u)
  {
    ReachedTidy(steps, t);
    hide Leads, Inv, Tidy, Next, Enabled;
    var more;
    more, u := OneMoreStep(Start(), steps, t, a, true);
  }

  /** The line has fewer words than argv has places, and begins like this; what follows is for the command to use. */
  predicate Begins(line: string, start: seq<string>) { line != "" && |Words(line)| < P.MAXARGS && start <= Words(line) }

  /** fg or bg with an argument. */
  lemma BgFgCommand(line: string, word: string, arg: string)
    requires Begins(line, [word, arg]) && word in {"fg", "bg"} && !(arg != "" && arg[0] == '&')
    ensures CommandOf(line) == if TargetOf(arg).Bad? then Nothing else BgFg(word == "bg", TargetOf(arg))
  {
    var words := Words(line);
    assert words[0] == word && words[1] == arg;
    hide TargetOf, P.Tokens, P.Spaced;
    assert [word, arg] <= P.Arguments(words);
  }

  lemma JobTarget(digits: string)
    requires Digits(digits)
    ensures TargetOf("%" + digits) == Jid(Number(digits))
  {
    assert ("%" + digits)[1..] == digits;
  }

  lemma PidTarget(digits: string)
    requires Digits(digits)
    ensures TargetOf(digits) == Pid(Number(digits)) && !(digits != "" && digits[0] == '&')
  {
    if digits != "" { assert digits[0] in digits && Digit(digits[0]); }
  }

  /** From the signal that continues the job on: bg is back at the prompt, fg waits for the entry. */
  lemma Continues(steps: seq<Step>, t: Sim, bg: bool, i: nat, p: nat) returns (u: Sim)
    requires Reached(steps, t) && t.handler.Out? && t.main == Continuing(i, p, bg)
    requires i < |t.table.jobs| && t.table.jobs[i].pid == p > 0
    ensures bg ==> Reached(steps + [Go, Go], u)
    ensures !bg ==> Reached(steps + [Go, Go, Go], u)
    ensures NowIn(t.table, u.table, i, if bg then Bg else Fg)
    ensures u == t.(table := u.table, main := if bg then Prompt else Waiting(i))
  {
    var x := if bg then Bg else Fg;
    ReachedTidy(steps, t);
    SetTracks(t.table, i, x, t.kids, t.handler);
    SlotOf(t.table.jobs, i);
    assert NowIn(t.table, Set(t.table, i, x), i, x);
    hide Reached, Inv, Tracks, Unique, Tidy, Slot, NowIn;
    u := Then(steps, t, Go);
    u := Then(steps + [Go], u, Go);
    assert steps + [Go] + [Go] == steps + [Go, Go];
    if !bg {
      u := Then(steps + [Go, Go], u, Go);
      assert steps + [Go, Go] + [Go] == steps + [Go, Go, Go];
    }
  }

  lemma FindsJob(t: Sim, line: string, word: string, digits: string, i: nat)
    requires Inv(t) && Readable(t) && Tidy(t.table) && AtPrompt(t) && Typable(line)
    requires Digits(digits) && Begins(line, [word, "%" + digits]) && word in {"bg", "fg"}
    requires i < |t.table.jobs| && t.table.jobs[i].jid == Number(digits) > 0
    requires forall k :: 0 <= k < i ==> t.table.jobs[k].jid != Number(digits)
    ensures t.handler.Out? && t.table.jobs[i].pid > 0 && Enabled(t, Type(line), true)
    ensures Next(t, Type(line)) == t.(main := ReadingPid(i, word == "bg"))
  {
    hide Inv, CommandOf, TargetOf;
    var j := Number(digits);
    BgFgCommand(line, word, "%" + digits);
    JobTarget(digits);
    assert JidSlot(t.table.jobs, j) == i && t.table.jobs[i].pid > 0;
    hide Begins, JidSlot, Tidy, Number, Digits;
  }

  lemma ReadsPid(s: Sim, i: nat, bg: bool)
    requires s.handler.Out? && s.main == ReadingPid(i, bg) && i < |s.table.jobs|
    ensures Enabled(s, Go, true) && Readable(s) && Next(s, Go) == s.(main := Continuing(i, s.table.jobs[i].pid, bg))
  {
  }

  lemma FindsPid(t: Sim, line: string, word: string, digits: string, i: nat)
    requires Inv(t) && Readable(t) && AtPrompt(t) && Typable(line)
    requires Digits(digits) && Begins(line, [word, digits]) && word in {"bg", "fg"}
    requires i < |t.table.jobs| && t.table.jobs[i].pid == Number(digits) > 0
    ensures t.handler.Out? && Enabled(t, Type(line), true) && Next(t, Type(line)) == t.(main := Continuing(i, Number(digits), word == "bg"))
  {
    PidTarget(digits);
    BgFgCommand(line, word, digits);
    SlotOf(t.table.jobs, i);
    hide Inv, CommandOf, TargetOf, Begins, Slot;
  }

  /** bg and fg by job number, over all that may have happened before: typed at the prompt, and with nothing else
      happening, they put the first entry with that number into the background or the foreground and change no
      other; after bg the shell is back at the prompt, after fg it waits for that entry. */
  lemma ByJob(steps: seq<Step>, t: Sim, line: string, word: string, digits: string, i: nat) returns (u: Sim)
    requires Reached(steps, t) && AtPrompt(t) && Typable(line)
    requires Digits(digits) && Begins(line, [word, "%" + digits]) && word in {"bg", "fg"}
    requires i < |t.table.jobs| && t.table.jobs[i].jid == Number(digits) > 0
    requires forall k :: 0 <= k < i ==> t.table.jobs[k].jid != Number(digits)
    ensures word == "bg" ==> Reached(steps + [Type(line), Go, Go, Go], u) && NowIn(t.table, u.table, i, Bg)
    ensures word == "fg" ==> Reached(steps + [Type(line), Go, Go, Go, Go], u) && NowIn(t.table, u.table, i, Fg)
    ensures u == t.(table := u.table, main := if word == "bg" then Prompt else Waiting(i))
  {
    hide *;
    var bg := word == "bg";
    ReachedTidy(steps, t);
    FindsJob(t, line, word, digits, i);
    ReadsPid(t.(main := ReadingPid(i, bg)), i, bg);
    var v := Then(steps, t, Type(line));
    v := Then(steps + [Type(line)], v, Go);
    assert steps + [Type(line)] + [Go] == steps + [Type(line), Go];
    u := Continues(steps + [Type(line), Go], v, bg, i, t.table.jobs[i].pid);
    assert steps + [Type(line), Go] + [Go, Go] == steps + [Type(line), Go, Go, Go];
    assert steps + [Type(line), Go] + [Go, Go, Go] == steps + [Type(line), Go, Go, Go, Go];
  }

  /** The same by process number. */
  lemma ByPid(steps: seq<Step>, t: Sim, line: string, word: string, digits: string, i: nat) returns (u: Sim)
    requires Reached(steps, t) && AtPrompt(t) && Typable(line)
    requires Digits(digits) && Begins(line, [word, digits]) && word in {"bg", "fg"}
    requires i < |t.table.jobs| && t.table.jobs[i].pid == Number(digits) > 0
    ensures word == "bg" ==> Reached(steps + [Type(line), Go, Go], u) && NowIn(t.table, u.table, i, Bg)
    ensures word == "fg" ==> Reached(steps + [Type(line), Go, Go, Go], u) && NowIn(t.table, u.table, i, Fg)
    ensures u == t.(table := u.table, main := if word == "bg" then Prompt else Waiting(i))
  {
    var bg := word == "bg";
    hide *;
    ReachedTidy(steps, t);
    FindsPid(t, line, word, digits, i);
    var v := Then(steps, t, Type(line));
    u := Continues(steps + [Type(line)], v, bg, i, t.table.jobs[i].pid);
    assert steps + [Type(line)] + [Go, Go] == steps + [Type(line), Go, Go];
    assert steps + [Type(line)] + [Go, Go, Go] == steps + [Type(line), Go, Go, Go];
  }

  // ---- the other lines ------------------------------------------------------------------------

  lemma FirstWord(line: string, word: string)
    requires Begins(line, [word]) && !(word != "" && word[0] == '&')
    ensures [word] <= P.Arguments(Words(line)) && (|P.Arguments(Words(line))| == 1 <==> |Words(line)| == 1 || SecondIsAmpersand(Words(line)))
  {
    assert Words(line)[0] == word;
    hide P.Tokens, P.Spaced;
  }

  /** Of two words the second asks for the background, which takes it off the arguments. */
  predicate SecondIsAmpersand(words: seq<string>) { |words| == 2 && words[1] != "" && words[1][0] == '&' }

  /** quit ends the shell. */
  lemma Quits(steps: seq<Step>, t: Sim, line: string) returns (u: Sim)
    requires Reached(steps, t) && AtPrompt(t) && Typable(line) && Begins(line, ["quit"])
    ensures Reached(steps + [Type(line)], u) && u == t.(main := Exited)
  {
    ReachedTidy(steps, t);
    FirstWord(line, "quit");
    hide Reached, Inv, Tidy, Begins, P.Tokens, P.Spaced, P.Arguments;
    u := Then(steps, t, Type(line));
  }

  /** A character that may not stand in the argument of fg or bg: no digit, and no leading percent sign. */
  predicate Misplaced(arg: string, k: nat) requires k < |arg| { !Digit(arg[k]) && !(k == 0 && arg[0] == '%') }

  /** No argument, a malformed one, or a number that no entry has. */
  ghost predicate Useless(jobs: seq<Job>, words: seq<string>) requires words != [] {
    || |words| == 1 || SecondIsAmpersand(words)
    || (exists k :: 0 <= k < |words[1]| && Misplaced(words[1], k))
    || (exists digits :: words[1] == "%" + digits && Digits(digits)
                         && (Number(digits) == 0 || forall i :: 0 <= i < |jobs| ==> jobs[i].jid != Number(digits)))
    || (Digits(words[1]) && (Number(words[1]) == 0 || forall i :: 0 <= i < |jobs| ==> jobs[i].pid != Number(words[1])))
  }

  lemma BadTarget(arg: string, k: nat)
    requires k < |arg| && Misplaced(arg, k)
    ensures TargetOf(arg) == Bad
  {
    var digits := if arg[0] == '%' then arg[1..] else arg;
    assert digits[if arg[0] == '%' then k - 1 else k] == arg[k];
    assert arg[k] in digits && !Digit(arg[k]);
  }

  lemma UselessTyped(t: Sim, line: string, word: string)
    requires AtPrompt(t) && word in {"fg", "bg"} && Begins(line, [word]) && Useless(t.table.jobs, Words(line))
    ensures Typed(t, CommandOf(line)) == t
  {
    var words := Words(line);
    assert words[0] == word;
    FirstWord(line, word);
    if |words| > 1 && !SecondIsAmpersand(words) {
      var arg := words[1];
      assert P.Arguments(words)[1] == arg;
      if k :| 0 <= k < |arg| && Misplaced(arg, k) { BadTarget(arg, k); }
      else if Digits(arg) { PidTarget(arg); }
      else { var digits :| arg == "%" + digits && Digits(digits); JobTarget(digits); }
    }
    hide TargetOf, P.Tokens, P.Spaced, P.Arguments, P.InBackground, Number;
  }

  /** jobs, and an fg or bg without a job to act on, change nothing. */
  lemma ChangesNothing(steps: seq<Step>, t: Sim, line: string)
    requires Reached(steps, t) && AtPrompt(t) && Typable(line)
    requires Begins(line, ["jobs"]) || ((Begins(line, ["fg"]) || Begins(line, ["bg"])) && Useless(t.table.jobs, Words(line)))
    ensures Reached(steps + [Type(line)], t)
  {
    if Begins(line, ["jobs"]) { FirstWord(line, "jobs"); }
    else if Begins(line, ["fg"]) { UselessTyped(t, line, "fg"); }
    else { UselessTyped(t, line, "bg"); }
    hide Reached, Begins, Useless, P.Tokens, P.Spaced, P.Arguments;
    var u := Then(steps, t, Type(line));
  }

  // ---- commands that are run ------------------------------------------------------------------

  /** A command that is not built in: the first word is no request for the background standing alone, and none of
      the four names. */
  predicate Runs(words: seq<string>) {
    && 0 < |words| < P.MAXARGS && words[0] !in {"quit", "jobs", "fg", "bg"}
    && !(|words| == 1 && words[0] != "" && words[0][0] == '&')
  }

  /** The last word asks for the background. */
  predicate ForBackground(words: seq<string>) {
    words != [] && var last := words[|words| - 1]; last != "" && last[0] == '&'
  }

  lemma RunCommand(line: string)
    requires line != "" && Runs(Words(line))
    ensures CommandOf(line) == Launch(ForBackground(Words(line)), line)
  {
    hide P.Tokens, P.Spaced;
  }

  /** The entry is filled, and nothing else but the next number changes. */
  ghost predicate Entered(t: Table, u: Table, i: nat, job: Job) {
    && i < |t.jobs| == |u.jobs| && u.jobs[i] == job
    && (forall k :: 0 <= k < |t.jobs| && k != i ==> u.jobs[k] == t.jobs[k])
    && u.nextjid == if t.nextjid >= MAXJOBS then 1 else t.nextjid + 1
  }

  lemma AddEnters(t: Table, p: nat, x: State, line: string, i: nat)
    requires i < |t.jobs| && t.jobs[i].pid == 0 && (forall k :: 0 <= k < i ==> t.jobs[k].pid != 0)
    ensures Entered(t, Added(t, p, x, line), i, Job(p, t.nextjid, x, line))
  {
    assert Slot(t.jobs, 0) == i;
  }

  lemma NewSlot(t: Table, u: Table, i: nat, job: Job)
    requires Entered(t, u, i, job) && !Listed(t.jobs, job.pid) && job.pid > 0
    ensures Slot(u.jobs, job.pid) == i && Listed(u.jobs, job.pid)
  {
    forall k | 0 <= k < i ensures u.jobs[k].pid != job.pid { assert t.jobs[k].pid != job.pid; }
  }

  lemma TypesCommand(t: Sim, line: string)
    requires AtPrompt(t) && Typable(line) && Runs(Words(line))
    ensures t.handler.Out? && Enabled(t, Type(line), true) && Readable(t)
    ensures Next(t, Type(line)) == t.(main := Forking(ForBackground(Words(line)), line))
  {
    RunCommand(line);
    hide CommandOf, Runs, ForBackground, Words;
  }

  lemma ForksChild(s: Sim, p: nat, bg: bool, line: string)
    requires s.handler.Out? && s.main == Forking(bg, line) && p > 0 && p !in s.kids
    ensures Enabled(s, Fork(p), true) && Readable(s) && Next(s, Fork(p)) == s.(kids := s.kids + {p}, main := Adding(p, bg, line))
  {
  }

  lemma AddsJob(s: Sim, p: nat, bg: bool, line: string, i: nat)
    requires s.handler.Out? && s.main == Adding(p, bg, line) && i < |s.table.jobs|
    requires s.table.jobs[i].pid == 0 && forall k :: 0 <= k < i ==> s.table.jobs[k].pid != 0
    ensures Enabled(s, Go, true) && Readable(s)
    ensures Next(s, Go) == s.(table := Added(s.table, p, if bg then Bg else Fg, line), main := Unblocking(p, bg))
  {
    assert Slot(s.table.jobs, 0) == i;
    hide Added;
  }

  lemma Unblocks(s: Sim, p: nat, bg: bool)
    requires s.handler.Out? && s.main == Unblocking(p, bg)
    ensures Enabled(s, Go, true) && Readable(s) && Next(s, Go) == s.(main := if bg then Prompt else FindingFg(p))
  {
  }

  lemma FindsFg(s: Sim, p: nat, i: nat)
    requires s.handler.Out? && s.main == FindingFg(p) && Listed(s.table.jobs, p) && Slot(s.table.jobs, p) == i
    ensures Enabled(s, Go, true) && Readable(s) && Next(s, Go) == s.(main := Waiting(i))
  {
  }

  lemma NotListedYet(t: Sim, p: nat)
    requires Inv(t) && t.handler.Out? && p !in t.kids
    ensures !Listed(t.table.jobs, p)
  {
    var i := Slot(t.table.jobs, p);
    assert Listed(t.table.jobs, p) ==> Alive(t.table.jobs[i].pid, t.kids, t.handler);
  }

  /** From the fork on. */
  lemma Enters(steps: seq<Step>, t: Sim, line: string, bg: bool, p: nat, i: nat) returns (u: Sim)
    requires Reached(steps, t) && t.handler.Out? && t.main == Forking(bg, line) && p > 0 && p !in t.kids
    requires i < |t.table.jobs| && t.table.jobs[i].pid == 0 && forall k :: 0 <= k < i ==> t.table.jobs[k].pid != 0
    ensures bg ==> Reached(steps + [Fork(p), Go, Go], u)
    ensures !bg ==> Reached(steps + [Fork(p), Go, Go, Go], u)
    ensures Entered(t.table, u.table, i, Job(p, t.table.nextjid, if bg then Bg else Fg, line))
    ensures u == t.(table := u.table, kids := t.kids + {p}, main := if bg then Prompt else Waiting(i))
  {
    hide *;
    var x := if bg then Bg else Fg;
    ReachedTidy(steps, t);
    NotListedYet(t, p);
    AddEnters(t.table, p, x, line, i);
    ForksChild(t, p, bg, line);
    u := Then(steps, t, Fork(p));
    AddsJob(u, p, bg, line, i);
    u := Then(steps + [Fork(p)], u, Go);
    Unblocks(u, p, bg);
    u := Then(steps + [Fork(p)] + [Go], u, Go);
    assert steps + [Fork(p)] + [Go] + [Go] == steps + [Fork(p), Go, Go];
    if !bg {
      NewSlot(t.table, u.table, i, Job(p, t.table.nextjid, x, line));
      FindsFg(u, p, i);
      u := Then(steps + [Fork(p), Go, Go], u, Go);
      assert steps + [Fork(p), Go, Go] + [Go] == steps + [Fork(p), Go, Go, Go];
    }
  }

  /** A command that is not built in, over all that may have happened before: with nothing else happening, its
      process gets the first free entry and the next number, in the background exactly if the last word says so;
      then the shell is back at the prompt, and otherwise it waits for that entry. */
  lemma Launched(steps: seq<Step>, t: Sim, line: string, p: nat, i: nat) returns (u: Sim)
    requires Reached(steps, t) && AtPrompt(t) && Typable(line) && Runs(Words(line)) && p > 0 && p !in t.kids
    requires i < |t.table.jobs| && t.table.jobs[i].pid == 0 && forall k :: 0 <= k < i ==> t.table.jobs[k].pid != 0
    ensures ForBackground(Words(line)) ==>
              Reached(steps + [Type(line), Fork(p), Go, Go], u) && Entered(t.table, u.table, i, Job(p, t.table.nextjid, Bg, line))
    ensures !ForBackground(Words(line)) ==>
              Reached(steps + [Type(line), Fork(p), Go, Go, Go], u) && Entered(t.table, u.table, i, Job(p, t.table.nextjid, Fg, line))
    ensures u == t.(table := u.table, kids := t.kids + {p}, main := if ForBackground(Words(line)) then Prompt else Waiting(i))
  {
    assert line != "";
    hide *;
    var bg := ForBackground(Words(line));
    TypesCommand(t, line);
    var v := Then(steps, t, Type(line));
    u := Enters(steps + [Type(line)], v, line, bg, p, i);
    assert steps + [Type(line)] + [Fork(p), Go, Go] == steps + [Type(line), Fork(p), Go, Go];
    assert steps + [Type(line)] + [Fork(p), Go, Go, Go] == steps + [Type(line), Fork(p), Go, Go, Go];
  }

  /** While the shell waits for an entry, it is back at the prompt with the next action exactly if the entry is no
      longer in the foreground. */
  lemma WaitEnds(steps: seq<Step>, t: Sim) returns (u: Sim)
    requires Reached(steps, t) && t.handler.Out? && t.main.Waiting?
    ensures Reached(steps + [Go], u) && t.main.i < |t.table.jobs|
    ensures u == if t.table.jobs[t.main.i].state == Fg then t else t.(main := Prompt)
  {
    ReachedTidy(steps, t);
    hide Reached, Inv, Tidy;
    u := Then(steps, t, Go);
  }

  // ---- the handler ----------------------------------------------------------------------------

  /** The handler has learnt that a child on the list has stopped: its entry is in state St, and no other changes. */
  lemma ChildStops(steps: seq<Step>, t: Sim, i: nat) returns (u: Sim)
    requires Reached(steps, t) && !Halted(t.main) && t.handler.Got? && t.handler.stopped
    requires i < |t.table.jobs| && t.table.jobs[i].pid == t.handler.p
    ensures Reached(steps + [Handle], u) && NowIn(t.table, u.table, i, St) && u == t.(table := u.table, handler := Polling)
  {
    ReachedTidy(steps, t);
    SlotOf(t.table.jobs, i);
    assert NowIn(t.table, Set(t.table, i, St), i, St);
    assert Listed(t.table.jobs, t.handler.p) && Slot(t.table.jobs, t.handler.p) == i;
    hide Reached, Inv, Tidy, NowIn, Listed, Slot, Set;
    u := Then(steps, t, Handle);
  }

  /** The entry is cleared, no other changes, and the next number is one above all that are left. */
  ghost predicate Cleared(t: Table, u: Table, i: nat) {
    && i < |t.jobs| == |u.jobs| && u.jobs[i] == Clear
    && (forall k :: 0 <= k < |t.jobs| && k != i ==> u.jobs[k] == t.jobs[k])
    && (forall k :: 0 <= k < |u.jobs| ==> u.jobs[k].jid < u.nextjid)
    && (u.nextjid == 1 || exists k :: 0 <= k < |u.jobs| && u.jobs[k].jid == u.nextjid - 1)
  }

  lemma DeleteClears(t: Table, p: nat, i: nat)
    requires i < |t.jobs| && t.jobs[i].pid == p && Slot(t.jobs, p) == i
    ensures Cleared(t, Deleted(t, p), i)
  {
  }

  lemma Deletes(s: Sim)
    requires Readable(s) && !Halted(s.main) && s.handler.Got? && !s.handler.stopped
    ensures Enabled(s, Handle, true) && Next(s, Handle) == s.(table := Deleted(s.table, s.handler.p), handler := Polling)
  {
    hide Deleted, Readable;
  }

  lemma EntryOf(t: Sim, i: nat)
    requires Inv(t) && t.handler.Got? && i < |t.table.jobs| && t.table.jobs[i].pid == t.handler.p
    ensures Slot(t.table.jobs, t.handler.p) == i
  {
    SlotOf(t.table.jobs, i);
    hide Slot, Foreground, Complete, Listed;
  }

  /** A child that has ended leaves the list. */
  lemma ChildEnds(steps: seq<Step>, t: Sim, i: nat) returns (u: Sim)
    requires Reached(steps, t) && !Halted(t.main) && t.handler.Got? && !t.handler.stopped
    requires i < |t.table.jobs| && t.table.jobs[i].pid == t.handler.p
    ensures Reached(steps + [Handle], u) && Cleared(t.table, u.table, i) && u == t.(table := u.table, handler := Polling)
  {
    hide *;
    ReachedTidy(steps, t);
    EntryOf(t, i);
    DeleteClears(t.table, t.handler.p, i);
    Deletes(t);
    u := Then(steps, t, Handle);
  }
}
