/** tsh.c: the read loop, the job list, and SIGCHLD arriving between any two actions. */
module Shell {
  import opened JobTable
  import P = Parseline

  datatype Target = Pid(n: nat) | Jid(n: nat) | Bad

  /** What a command line asks for; Nothing is jobs, and fg or bg with a missing or bad argument. */
  datatype Command = NoCommand | TooMany | Quit | Nothing | Launch(bg: bool, cmdline: string) | BgFg(bg: bool, target: Target)

  predicate Digit(c: char) { '0' <= c <= '9' }

  /** atoi of digits. */
  function Number(s: string): nat
    requires forall c :: c in s ==> Digit(c)
  {
    if s == "" then 0
    else
      assert s[|s| - 1] in s && Digit(s[|s| - 1]);
      10 * Number(s[..|s| - 1]) + (s[|s| - 1] as int - '0' as int)
  }

  /** The argument of fg and bg: a process, or a job number after a percent sign. */
  function TargetOf(arg: string): Target {
    var digits := if arg != "" && arg[0] == '%' then arg[1..] else arg;
    if exists c :: c in digits && !Digit(c) then Bad
    else if arg != "" && arg[0] == '%' then Jid(Number(digits))
    else Pid(Number(digits))
  }

  /** parseline, and the names that builtin_cmd knows. */
  function CommandOf(line: string): Command requires line != "" {
    var tokens := P.Tokens(P.Spaced(line));
    var args := P.Arguments(tokens);
    if |tokens| >= P.MAXARGS then TooMany
    else if args == [] then NoCommand
    else if args[0] == "quit" then Quit
    else if args[0] == "jobs" then Nothing
    else if args[0] != "fg" && args[0] != "bg" then Launch(P.InBackground(tokens), line)
    else if |args| == 1 then Nothing
    else if TargetOf(args[1]).Bad? then Nothing
    else BgFg(args[0] == "bg", TargetOf(args[1]))
  }

  /** strcmp of argv[0] when it is NULL; argv overrun; job->state through a NULL job, in waitfg or in the handler. */
  datatype Cause = EmptyCommand | Overrun | NoSuchForeground(p: nat) | NoSuchStopped(p: nat)

  /** Where the main loop stands; the comment names its next action. An entry of jobs is given by its index. */
  datatype Main =
    | Prompt                                        // fgets
    | Forking(bg: bool, cmdline: string)            // Fork, SIGCHLD blocked
    | Adding(p: nat, bg: bool, cmdline: string)     // addjob
    | Unblocking(p: nat, bg: bool)                  // Sigprocmask(SIG_UNBLOCK)
    | FindingFg(p: nat)                             // getjobpid in waitfg
    | Waiting(i: nat)                               // while(job->state == FG)
    | ReadingPid(i: nat, bg: bool)                  // pid = job->pid
    | Continuing(i: nat, p: nat, bg: bool)          // kill(-pid, SIGCONT)
    | Setting(i: nat, p: nat, bg: bool)             // job->state = ...
    | Exited
    | Crashed(cause: Cause)

  /** sigchld_handler: outside it, before waitpid, or with the process that waitpid returned. */
  datatype Handler = Out | Polling | Got(p: nat, stopped: bool)

  /** kids: the children not reaped yet; lost: those of them that found the table full. */
  datatype Sim = Sim(table: Table, kids: set<nat>, lost: set<nat>, main: Main, handler: Handler)

  function Start(): Sim { Sim(Empty(), {}, {}, Prompt, Out) }

  datatype Step =
    | Type(line: string)
    | Fork(p: nat)
    | Go
    | Deliver
    | WaitPid(p: nat, stopped: bool)
    | NoneLeft
    | Handle

  predicate Masks(m: Main) { m.Forking? || m.Adding? || m.Unblocking? }

  predicate Halted(m: Main) { m.Exited? || m.Crashed? }

  /** masked: whether eval blocks SIGCHLD from the fork to addjob, as it does. A new process never has the
      number of a child that is not reaped yet; while the handler runs, the main loop does not. */
  predicate Enabled(s: Sim, a: Step, masked: bool) {
    !Halted(s.main) && match a
      case Type(line) => s.handler.Out? && s.main.Prompt? && 0 < |line| < P.MAXLINE && P.NUL !in line
      case Fork(p) => s.handler.Out? && s.main.Forking? && p > 0 && p !in s.kids
      case Go => s.handler.Out? && !s.main.Prompt? && !s.main.Forking?
      case Deliver => s.handler.Out? && !(masked && Masks(s.main))
      case WaitPid(p, _) => s.handler.Polling? && p in s.kids
      case NoneLeft => s.handler.Polling?
      case Handle => s.handler.Got?
  }

  /** The entry that getjobpid returns. */
  predicate Listed(jobs: seq<Job>, p: nat) { p > 0 && Slot(jobs, p) < |jobs| }

  function Typed(s: Sim, c: Command): Sim {
    match c
    case NoCommand => s.(main := Crashed(EmptyCommand))
    case TooMany => s.(main := Crashed(Overrun))
    case Quit => s.(main := Exited)
    case Nothing => s
    case Launch(bg, cmdline) => s.(main := Forking(bg, cmdline))
    case BgFg(bg, Pid(p)) => if Listed(s.table.jobs, p) then s.(main := Continuing(Slot(s.table.jobs, p), p, bg)) else s
    case BgFg(bg, Jid(j)) =>
      var i := JidSlot(s.table.jobs, j);
      if j > 0 && i < |s.table.jobs| then s.(main := ReadingPid(i, bg)) else s
    case BgFg(_, Bad) => s
  }

  /** Every entry the main loop holds on to exists. */
  predicate Readable(s: Sim) {
    match s.main
    case Waiting(i) => i < |s.table.jobs|
    case ReadingPid(i, _) => i < |s.table.jobs|
    case Continuing(i, _, _) => i < |s.table.jobs|
    case Setting(i, _, _) => i < |s.table.jobs|
    case _ => true
  }

  /** The next action of the main loop. */
  function Gone(s: Sim): Sim
    requires Readable(s) && Enabled(s, Go, true)
  {
    match s.main
    case Adding(p, bg, cmdline) =>
      s.(table := Added(s.table, p, if bg then Bg else Fg, cmdline),
         lost := if Slot(s.table.jobs, 0) < |s.table.jobs| then s.lost else s.lost + {p},
         main := Unblocking(p, bg))
    case Unblocking(p, bg) => s.(main := if bg then Prompt else FindingFg(p))
    case FindingFg(p) => s.(main := if Listed(s.table.jobs, p) then Waiting(Slot(s.table.jobs, p)) else Crashed(NoSuchForeground(p)))
    case Waiting(i) => if s.table.jobs[i].state == Fg then s else s.(main := Prompt)
    case ReadingPid(i, bg) => s.(main := Continuing(i, s.table.jobs[i].pid, bg))
    case Continuing(i, p, bg) => s.(main := Setting(i, p, bg))
    case Setting(i, p, bg) => s.(table := Set(s.table, i, if bg then Bg else Fg), main := if bg then Prompt else FindingFg(p))
  }

  function Handled(s: Sim): Sim
    requires s.handler.Got?
  {
    var p := s.handler.p;
    if !s.handler.stopped then s.(table := Deleted(s.table, p), handler := Polling)
    else if Listed(s.table.jobs, p) then s.(table := Set(s.table, Slot(s.table.jobs, p), St), handler := Polling)
    else s.(main := Crashed(NoSuchStopped(p)), handler := Polling)
  }

  function Next(s: Sim, a: Step): Sim
    requires Readable(s) && (Enabled(s, a, true) || Enabled(s, a, false))
  {
    match a
    case Type(line) => Typed(s, CommandOf(line))
    case Fork(p) => s.(kids := s.kids + {p}, main := Adding(p, s.main.bg, s.main.cmdline))
    case Go => Gone(s)
    case Deliver => s.(handler := Polling)
    case WaitPid(p, stopped) =>
      s.(handler := Got(p, stopped), kids := if stopped then s.kids else s.kids - {p}, lost := if stopped then s.lost else s.lost - {p})
    case NoneLeft => s.(handler := Out)
    case Handle => Handled(s)
  }

  // ---- the invariant --------------------------------------------------------------------------

  /** p is a child not reaped yet, or just reaped and about to be taken off the list. */
  predicate Alive(p: nat, kids: set<nat>, h: Handler) { p in kids || h == Got(p, false) }

  ghost predicate Unique(jobs: seq<Job>) {
    forall i, j :: 0 <= i < j < |jobs| && jobs[i].pid != 0 ==> jobs[i].pid != jobs[j].pid
  }

  /** The list holds unreaped children, each once. */
  ghost predicate Tracks(jobs: seq<Job>, kids: set<nat>, h: Handler) {
    && |jobs| == MAXJOBS && 0 !in kids && Unique(jobs)
    && (h.Got? ==> h.p > 0 && (h.p in kids <==> h.stopped))
    && (forall i {:trigger jobs[i]} :: 0 <= i < |jobs| && jobs[i].pid != 0 ==> Alive(jobs[i].pid, kids, h))
  }

  /** And all of them, but the one just forked and those that found it full. */
  ghost predicate Complete(jobs: seq<Job>, kids: set<nat>, lost: set<nat>, m: Main) {
    forall p :: p in kids ==> Listed(jobs, p) || p in lost || (m.Adding? && m.p == p)
  }

  /** A child that found the list full is never on it. */
  ghost predicate Unlisted(jobs: seq<Job>, lost: set<nat>) { forall p :: p in lost ==> !Listed(jobs, p) }

  ghost predicate NoFg(jobs: seq<Job>) { forall i :: 0 <= i < |jobs| ==> jobs[i].state != Fg }

  ghost predicate OneFg(jobs: seq<Job>) {
    forall i, j :: 0 <= i < j < |jobs| && jobs[i].state == Fg ==> jobs[j].state != Fg
  }

  ghost predicate OnlyFg(jobs: seq<Job>, i: int) { forall k :: 0 <= k < |jobs| && jobs[k].state == Fg ==> k == i }

  /** The entry that bg or fg looked up is still that process's, or was cleared since. */
  ghost predicate Held(jobs: seq<Job>, i: nat, p: nat) {
    i < |jobs| && (jobs[i].pid == p || (jobs[i].pid == 0 && !Listed(jobs, p)))
  }

  ghost predicate Foreground(jobs: seq<Job>, m: Main) {
    match m
    case Unblocking(p, bg) => if bg then NoFg(jobs) else OneFg(jobs) && (Listed(jobs, p) ==> OnlyFg(jobs, Slot(jobs, p)))
    case FindingFg(p) => OneFg(jobs) && (Listed(jobs, p) ==> OnlyFg(jobs, Slot(jobs, p)))
    case Waiting(i) => i < |jobs| && OnlyFg(jobs, i) && (jobs[i].state == Fg ==> jobs[i].pid != 0)
    case ReadingPid(i, _) => NoFg(jobs) && i < |jobs|
    case Continuing(i, p, _) => NoFg(jobs) && Held(jobs, i, p)
    case Setting(i, p, _) => NoFg(jobs) && Held(jobs, i, p)
    case Crashed(_) => OneFg(jobs)
    case _ => NoFg(jobs)
  }

  /** With SIGCHLD blocked, the child just forked is still there and not on the list; and why a shell crashed. */
  ghost predicate Pending(s: Sim) {
    match s.main
    case Forking(_, _) => s.handler.Out?
    case Adding(p, _, _) => s.handler.Out? && p in s.kids && p !in s.lost && !Listed(s.table.jobs, p)
    case Unblocking(_, _) => s.handler.Out?
    case Crashed(NoSuchForeground(p)) => !Listed(s.table.jobs, p) && (p !in s.kids || p in s.lost)
    case Crashed(NoSuchStopped(p)) => p in s.lost
    case _ => true
  }

  ghost predicate Inv(s: Sim) {
    && Tracks(s.table.jobs, s.kids, s.handler) && s.lost <= s.kids && Unlisted(s.table.jobs, s.lost)
    && Complete(s.table.jobs, s.kids, s.lost, s.main)
    && Foreground(s.table.jobs, s.main)
    && Pending(s)
  }

  lemma StartOk()
    ensures Inv(Start())
  {
  }

  // ---- what the list operations do to each part -----------------------------------------------

  lemma SlotSame(jobs: seq<Job>, u: seq<Job>, q: nat)
    requires |u| == |jobs| && forall i :: 0 <= i < |jobs| ==> (u[i].pid == q <==> jobs[i].pid == q)
    ensures Slot(u, q) == Slot(jobs, q)
  {
  }

  /** Listed children have one entry each. */
  lemma SlotOf(jobs: seq<Job>, i: nat)
    requires Unique(jobs) && i < |jobs| && jobs[i].pid != 0
    ensures Slot(jobs, jobs[i].pid) == i
  {
  }

  lemma ClearTracks(t: Table, p: nat, kids: set<nat>)
    requires Tracks(t.jobs, kids, Got(p, false))
    ensures Tracks(Deleted(t, p).jobs, kids, Polling)
    ensures forall q :: q != p ==> (Listed(Deleted(t, p).jobs, q) <==> Listed(t.jobs, q))
    ensures forall q :: q != p && Listed(t.jobs, q) ==> Slot(Deleted(t, p).jobs, q) == Slot(t.jobs, q)
    ensures !Listed(Deleted(t, p).jobs, p)
  {
    var u := Deleted(t, p).jobs;
    forall i | 0 <= i < |u| && u[i].pid != 0 ensures u[i] == t.jobs[i] && u[i].pid != p {
    }
    forall i | 0 <= i < |u| && u[i].pid != 0 ensures Alive(u[i].pid, kids, Polling) {
      assert Alive(t.jobs[i].pid, kids, Got(p, false));
    }
    forall q | q != p ensures (Listed(u, q) <==> Listed(t.jobs, q)) && (Listed(t.jobs, q) ==> Slot(u, q) == Slot(t.jobs, q)) {
      if q > 0 { SlotSame(t.jobs, u, q); }
    }
  }

  /** Nothing new in the foreground. */
  lemma FewerFg(jobs: seq<Job>, u: seq<Job>)
    requires |u| == |jobs| && forall i :: 0 <= i < |u| && u[i].state == Fg ==> jobs[i].state == Fg
    ensures NoFg(jobs) ==> NoFg(u)
    ensures OneFg(jobs) ==> OneFg(u)
    ensures forall i :: OnlyFg(jobs, i) ==> OnlyFg(u, i)
  {
  }

  lemma ClearForeground(t: Table, p: nat, kids: set<nat>, m: Main)
    requires Tracks(t.jobs, kids, Got(p, false)) && Foreground(t.jobs, m)
    ensures Foreground(Deleted(t, p).jobs, m)
  {
    ClearTracks(t, p, kids);
    hide Listed, Slot, Tracks;
    var u := Deleted(t, p).jobs;
    assert |u| == |t.jobs| && forall i :: 0 <= i < |u| ==> u[i] == t.jobs[i] || (u[i] == Clear && t.jobs[i].pid == p);
    FewerFg(t.jobs, u);
    hide Deleted, NoFg, OneFg, OnlyFg;
  }

  /** A change of state is no change of process. */
  lemma SetTracks(t: Table, i: nat, x: State, kids: set<nat>, h: Handler)
    requires Tracks(t.jobs, kids, h) && i < |t.jobs|
    ensures Tracks(Set(t, i, x).jobs, kids, h)
    ensures forall q :: Slot(Set(t, i, x).jobs, q) == Slot(t.jobs, q)
  {
    var u := Set(t, i, x).jobs;
    forall q ensures Slot(u, q) == Slot(t.jobs, q) { SlotSame(t.jobs, u, q); }
    forall k | 0 <= k < |u| && u[k].pid != 0 ensures Alive(u[k].pid, kids, h) { assert Alive(t.jobs[k].pid, kids, h); }
  }

  lemma StopForeground(t: Table, i: nat, kids: set<nat>, h: Handler, m: Main)
    requires Tracks(t.jobs, kids, h) && i < |t.jobs| && Foreground(t.jobs, m)
    ensures Foreground(Set(t, i, St).jobs, m)
  {
    SetTracks(t, i, St, kids, h);
    hide Slot, Tracks;
    var u := Set(t, i, St).jobs;
    assert forall k :: 0 <= k < |u| ==> u[k].pid == t.jobs[k].pid && (u[k].state == Fg ==> t.jobs[k].state == Fg);
    FewerFg(t.jobs, u);
    hide NoFg, OneFg, OnlyFg;
  }

  lemma AddTracks(t: Table, p: nat, x: State, cmdline: string, kids: set<nat>)
    requires Tracks(t.jobs, kids, Out) && p in kids && !Listed(t.jobs, p)
    ensures Tracks(Added(t, p, x, cmdline).jobs, kids, Out)
    ensures forall q :: Listed(t.jobs, q) ==> Listed(Added(t, p, x, cmdline).jobs, q)
    ensures forall q :: q != p && Listed(Added(t, p, x, cmdline).jobs, q) ==> Listed(t.jobs, q)
    ensures Slot(t.jobs, 0) < |t.jobs| ==> Listed(Added(t, p, x, cmdline).jobs, p)
  {
    var u := Added(t, p, x, cmdline).jobs;
    var k := Slot(t.jobs, 0);
    assert p > 0;
    forall i | 0 <= i < |u| && u[i].pid != 0 ensures Alive(u[i].pid, kids, Out) { assert i != k ==> Alive(t.jobs[i].pid, kids, Out); }
    forall i | 0 <= i < |u| && i != k ensures u[i].pid != p { assert u[i] == t.jobs[i]; }
    if k < |u| { assert u[k].pid == p; }
    forall q | Listed(t.jobs, q) ensures Listed(u, q) { assert u[Slot(t.jobs, q)].pid == q; }
    forall q | q != p && Listed(u, q) ensures Listed(t.jobs, q) { assert t.jobs[Slot(u, q)].pid == q; }
  }

  lemma AddForeground(t: Table, p: nat, bg: bool, cmdline: string, kids: set<nat>)
    requires Tracks(t.jobs, kids, Out) && p in kids && !Listed(t.jobs, p) && NoFg(t.jobs)
    ensures Foreground(Added(t, p, if bg then Bg else Fg, cmdline).jobs, Unblocking(p, bg))
  {
  }

  // ---- every step keeps the invariant ---------------------------------------------------------

  lemma InvReadable(s: Sim)
    requires Inv(s)
    ensures Readable(s)
  {
  }

  lemma TypedKeeps(s: Sim, c: Command)
    requires Inv(s) && s.handler.Out? && s.main.Prompt?
    ensures Inv(Typed(s, c))
  {
  }

  lemma AddingKeeps(s: Sim)
    requires Inv(s) && Readable(s) && Enabled(s, Go, true) && s.main.Adding?
    ensures Inv(Gone(s))
  {
    var p, bg, line := s.main.p, s.main.bg, s.main.cmdline;
    AddTracks(s.table, p, if bg then Bg else Fg, line, s.kids);
    AddForeground(s.table, p, bg, line, s.kids);
    hide Added, Tracks, NoFg, OneFg, OnlyFg;
  }

  lemma SettingKeeps(s: Sim)
    requires Inv(s) && Readable(s) && Enabled(s, Go, true) && s.main.Setting?
    ensures Inv(Gone(s))
  {
    var i, x := s.main.i, if s.main.bg then Bg else Fg;
    SetTracks(s.table, i, x, s.kids, s.handler);
    if s.table.jobs[i].pid != 0 { SlotOf(s.table.jobs, i); }
    hide Tracks, Unique;
  }

  lemma GoKeeps(s: Sim)
    requires Inv(s) && Readable(s) && Enabled(s, Go, true) && !s.main.Adding? && !s.main.Setting?
    ensures Inv(Gone(s))
  {
  }

  lemma HandleKeeps(s: Sim)
    requires Inv(s) && s.handler.Got?
    ensures Inv(Handled(s))
  {
    var p := s.handler.p;
    if !s.handler.stopped {
      ClearTracks(s.table, p, s.kids);
      ClearForeground(s.table, p, s.kids, s.main);
    } else if Listed(s.table.jobs, p) {
      SetTracks(s.table, Slot(s.table.jobs, p), St, s.kids, s.handler);
      StopForeground(s.table, Slot(s.table.jobs, p), s.kids, s.handler, s.main);
    }
    hide Deleted, Set, Foreground;
  }

  /** Whatever SIGCHLD interrupts, the invariant is kept. */
  lemma StepKeeps(s: Sim, a: Step)
    requires Inv(s) && Enabled(s, a, true)
    ensures Readable(s) && Inv(Next(s, a))
  {
    InvReadable(s);
    hide Gone, Handled, Typed;
    match a
    case Type(line) => TypedKeeps(s, CommandOf(line));
    case Go => if s.main.Adding? { AddingKeeps(s); } else if s.main.Setting? { SettingKeeps(s); } else { GoKeeps(s); }
    case Handle => HandleKeeps(s);
    case _ =>
  }

  // ---- runs -----------------------------------------------------------------------------------

  /** The steps lead from s to t; following an index off the list would lead anywhere. */
  ghost predicate Leads(s: Sim, steps: seq<Step>, t: Sim, masked: bool)
    decreases |steps|
  {
    if steps == [] then s == t
    else Enabled(s, steps[0], masked) && (Readable(s) ==> Leads(Next(s, steps[0]), steps[1..], t, masked))
  }

  lemma {:induction false} RunKeeps(s: Sim, steps: seq<Step>, t: Sim)
    requires Inv(s) && Leads(s, steps, t, true)
    ensures Inv(t)
    decreases |steps|
  {
    hide Inv, Readable, Next, Enabled;
    if steps != [] {
      StepKeeps(s, steps[0]);
      RunKeeps(Next(s, steps[0]), steps[1..], t);
    }
  }

  /** Wherever SIGCHLD strikes: an entry of the list is a child not reaped yet (or the one that the handler has
      just reaped and is about to delete), no child has two, and no child is missing that found room. */
  lemma ListIsTheChildren(steps: seq<Step>, t: Sim)
    requires Leads(Start(), steps, t, true)
    ensures |t.table.jobs| == MAXJOBS && Unique(t.table.jobs)
    ensures forall i {:trigger t.table.jobs[i]} :: 0 <= i < MAXJOBS && t.table.jobs[i].pid != 0 ==> Alive(t.table.jobs[i].pid, t.kids, t.handler)
    ensures t.main.Prompt? ==> forall p :: p in t.kids ==> Listed(t.table.jobs, p) || p in t.lost
  {
    hide Foreground, Pending, Leads;
    StartOk();
    RunKeeps(Start(), steps, t);
  }

  /** At most one job is in the foreground, and none while the shell reads a command line. */
  lemma OneForeground(steps: seq<Step>, t: Sim)
    requires Leads(Start(), steps, t, true)
    ensures OneFg(t.table.jobs) && (t.main.Prompt? ==> NoFg(t.table.jobs))
  {
    hide Tracks, Complete, Pending, Leads;
    StartOk();
    RunKeeps(Start(), steps, t);
  }

  /** What fgpid returns, and ctrl-c and ctrl-z signal. */
  function FgPid(jobs: seq<Job>): nat { if FgSlot(jobs) < |jobs| then jobs[FgSlot(jobs)].pid else 0 }

  /** A signal goes to the one foreground job; outside the handler that is a child not reaped yet, and there is
      none at the prompt. */
  lemma SignalsReachForeground(steps: seq<Step>, t: Sim)
    requires Leads(Start(), steps, t, true)
    ensures var p := FgPid(t.table.jobs);
      p != 0 ==> !t.main.Prompt? && Alive(p, t.kids, t.handler) && Listed(t.table.jobs, p) && OnlyFg(t.table.jobs, Slot(t.table.jobs, p))
    ensures FgPid(t.table.jobs) != 0 && t.handler.Out? ==> FgPid(t.table.jobs) in t.kids
  {
    ListIsTheChildren(steps, t);
    OneForeground(steps, t);
    hide Leads;
    var jobs := t.table.jobs;
    var i := FgSlot(jobs);
    if i < |jobs| && jobs[i].pid != 0 { SlotOf(jobs, i); }
  }

  /** And while the main loop waits for a foreground job, the signal does reach it. */
  lemma WaitingIsReached(steps: seq<Step>, t: Sim)
    requires Leads(Start(), steps, t, true) && t.main.Waiting?
    ensures Readable(t) && (t.table.jobs[t.main.i].state == Fg ==> FgPid(t.table.jobs) == t.table.jobs[t.main.i].pid != 0)
  {
    hide Leads, Tracks, Complete, Unlisted;
    StartOk();
    RunKeeps(Start(), steps, t);
  }

  /** No command, nothing but a request for the background, or more arguments than argv can hold. */
  predicate Unrunnable(tokens: seq<string>) {
    tokens == [] || (|tokens| == 1 && tokens[0] != "" && tokens[0][0] == '&') || |tokens| >= P.MAXARGS
  }

  /** When a step of a shell that is still up makes it crash. */
  ghost predicate Crashes(s: Sim, a: Step) {
    match a
    case Type(line) => line != "" && Unrunnable(P.Tokens(P.Spaced(line)))
    case Go => s.main.FindingFg? && (s.main.p !in s.kids || s.main.p in s.lost)
    case Handle => s.handler.Got? && s.handler.stopped && s.handler.p in s.lost
    case _ => false
  }

  /** In every reachable state: the shell crashes exactly on a line without a command or with too many arguments,
      when waitfg looks for a foreground child that is reaped already or found the list full, and when such
      a child stops. */
  lemma CrashesExactly(steps: seq<Step>, t: Sim, a: Step)
    requires Leads(Start(), steps, t, true) && Enabled(t, a, true)
    ensures Readable(t) && (Next(t, a).main.Crashed? <==> Crashes(t, a))
  {
    hide Leads;
    StartOk();
    RunKeeps(Start(), steps, t);
    InvReadable(t);
  }

  /** A process on the list is a child, and a child is on it unless it found it full. */
  lemma ListedKids(s: Sim, p: nat)
    requires Inv(s) && !s.main.Adding?
    ensures p in s.kids ==> (Listed(s.table.jobs, p) <==> p !in s.lost)
    ensures s.handler.Out? && p !in s.kids ==> !Listed(s.table.jobs, p)
  {
    if Listed(s.table.jobs, p) { assert Alive(s.table.jobs[Slot(s.table.jobs, p)].pid, s.kids, s.handler); }
  }

  lemma {:induction false} OneMoreStep(s: Sim, steps: seq<Step>, t: Sim, a: Step, masked: bool) returns (more: seq<Step>, u: Sim)
    requires Leads(s, steps, t, masked) && Enabled(t, a, masked) && Readable(t)
    ensures u == Next(t, a) && more == steps + [a] && Leads(s, more, u, masked)
    decreases |steps|
  {
    hide Readable, Next, Enabled;
    u := Next(t, a);
    more := steps + [a];
    if steps == [] {
      assert [a][1..] == [] && Leads(u, [], u, masked) && more == [a];
    } else {
      assert more[0] == steps[0] && more[1..] == steps[1..] + [a];
      if Readable(s) {
        var rest, v := OneMoreStep(Next(s, steps[0]), steps[1..], t, a, masked);
      }
    }
  }

  /** A line of at most a buffer that launches a command. */
  predicate Launches(line: string, bg: bool) { 0 < |line| < P.MAXLINE && P.NUL !in line && CommandOf(line) == Launch(bg, line) }

  lemma Forked(line: string, bg: bool, p: nat, masked: bool) returns (steps: seq<Step>, t: Sim)
    requires Launches(line, bg) && p > 0
    ensures Leads(Start(), steps, t, masked) && t == Start().(main := Adding(p, bg, line), kids := {p})
  {
    steps, t := [], Start();
    assert Leads(Start(), steps, t, masked);
    hide Leads, CommandOf;
    steps, t := OneMoreStep(Start(), steps, t, Type(line), masked);
    steps, t := OneMoreStep(Start(), steps, t, Fork(p), masked);
  }

  /** SIGCHLD arrives, and the handler reaps the only child. */
  lemma Reaps(s: Sim, steps: seq<Step>, t: Sim, p: nat, masked: bool) returns (more: seq<Step>, u: Sim)
    requires Leads(s, steps, t, masked) && Readable(t) && Enabled(t, Deliver, masked) && t.kids == {p} && t.lost == {}
    ensures Leads(s, more, u, masked) && u == t.(table := Deleted(t.table, p), kids := {})
  {
    assert |Deleted(t.table, p).jobs| == |t.table.jobs|;
    hide Leads, Deleted;
    more, u := OneMoreStep(s, steps, t, Deliver, masked);
    more, u := OneMoreStep(s, more, u, WaitPid(p, false), masked);
    assert u == t.(handler := Got(p, false), kids := {});
    more, u := OneMoreStep(s, more, u, Handle, masked);
    assert u == t.(table := Deleted(t.table, p), handler := Polling, kids := {});
    more, u := OneMoreStep(s, more, u, NoneLeft, masked);
  }

  /** The race that blocking SIGCHLD prevents, open to every background command: the child ends and is reaped
      before it is on the list, and the list keeps it at the next prompt. */
  lemma RaceWithoutMask(line: string, p: nat)
    requires Launches(line, true) && p > 0
    ensures exists steps, t :: Leads(Start(), steps, t, false) && t.main.Prompt? && t.handler.Out? && t.kids == {} && Listed(t.table.jobs, p)
  {
    var steps, t := Forked(line, true, p, false);
    hide Leads;
    assert Slot(t.table.jobs, p) == MAXJOBS && Slot(t.table.jobs, 0) == 0;
    steps, t := Reaps(Start(), steps, t, p, false);
    steps, t := OneMoreStep(Start(), steps, t, Go, false);
    assert t.table.jobs[0].pid == p;
    steps, t := OneMoreStep(Start(), steps, t, Go, false);
  }

  lemma ForegroundListed(line: string, p: nat) returns (steps: seq<Step>, t: Sim)
    requires Launches(line, false) && p > 0
    ensures Leads(Start(), steps, t, true)
    ensures t == Sim(Table(Empty().jobs[0 := Job(p, 1, Fg, line)], 2), {p}, {}, FindingFg(p), Out)
  {
    steps, t := Forked(line, false, p, true);
    hide Leads;
    assert Slot(t.table.jobs, 0) == 0;
    steps, t := OneMoreStep(Start(), steps, t, Go, true);
    steps, t := OneMoreStep(Start(), steps, t, Go, true);
  }

  /** With it, the child can still end before waitfg looks it up: any foreground command may take the shell along. */
  lemma FastChildCrashes(line: string, p: nat)
    requires Launches(line, false) && p > 0
    ensures exists steps, t :: Leads(Start(), steps, t, true) && t.main == Crashed(NoSuchForeground(p)) && t.lost == {}
  {
    var steps, t := ForegroundListed(line, p);
    hide Leads, Added, Deleted, Listed, CommandOf;
    steps, t := Reaps(Start(), steps, t, p, true);
    steps, t := OneMoreStep(Start(), steps, t, Go, true);
  }

  /** There are such lines. */
  lemma LaunchLines()
    ensures Launches("a\n", false) && Launches("a &\n", true)
  {
    ForegroundLine();
    BackgroundLine();
    hide CommandOf;
  }

  lemma ForegroundLine()
    ensures CommandOf("a\n") == Launch(false, "a\n")
  {
    assert P.Spaced("a\n") == "a" + " ";
    P.PlainFirst("a", " ");
    P.SpaceToken("");
    P.NoTokens();
    hide P.Tokens, P.Spaced;
    assert " " + "" == " ";
    assert P.Tokens(P.Spaced("a\n")) == ["a"];
  }

  lemma BackgroundLine()
    ensures CommandOf("a &\n") == Launch(true, "a &\n")
  {
    BackgroundTokens();
    hide P.Tokens, P.Spaced;
  }

  lemma BackgroundTokens()
    ensures P.Tokens(P.Spaced("a &\n")) == ["a", "&"]
  {
    assert P.Spaced("a &\n") == "a" + " & ";
    assert " " + "" == " " && " " + "& " == " & " && "&" + " " == "& ";
    hide P.Tokens, P.Spaced, P.Skip, P.Index;
    P.PlainFirst("a", " & ");
    P.SpaceToken("& ");
    P.PlainFirst("&", " ");
    P.SpaceToken("");
    P.NoTokens();
  }
}
