/** Whole runs of the barbershop: what no interleaving can break, and that every run ends with everyone served. */
module BarbershopRuns {
  import opened Monitor
  import opened Sequences
  import opened Barbershop
  import opened BarbershopSafety

  /** The actions lead from s to t; reading a bad index or an empty chair would lead anywhere. */
  ghost predicate Leads(s: Sim, steps: seq<Step>, t: Sim, rejects: bool)
    decreases |steps|
  {
    if steps == [] then s == t
    else Enabled(s, steps[0]) && (Readable(s) ==> Leads(Next(s, steps[0], rejects), steps[1..], t, rejects))
  }

  lemma {:induction false} RunKeeps(s: Sim, steps: seq<Step>, t: Sim, rejects: bool)
    requires Inv(s) && Leads(s, steps, t, rejects)
    ensures Inv(t)
    decreases |steps|
  {
    hide Inv, Readable, Next, Enabled;
    if steps != [] {
      StepKeeps(s, steps[0], rejects);
      RunKeeps(Next(s, steps[0], rejects), steps[1..], t, rejects);
    }
  }

  // ---- complaints -----------------------------------------------------------------------------

  /** Nobody was ever turned away, says the monitor. */
  ghost predicate NobodyRejected(h: Shop) {
    && RejectAvail !in h.complaints
    && (forall c :: 0 <= c < |h.statuses| ==> h.statuses[c] != Rejected)
  }

  lemma CutsRejectNobody(h: Shop, c: nat, b: nat, fast: bool, slow: bool)
    requires NobodyRejected(h) && c < |h.statuses| && b < |h.occupancy|
    ensures NobodyRejected(Prepared(h, c, b, false)) && NobodyRejected(Dismissed(h, c, b, false, fast, slow))
  {
    CutsKeepRejections(h, c, b, fast, slow);
  }

  lemma CutsKeepRejections(h: Shop, c: nat, b: nat, fast: bool, slow: bool)
    requires RejectAvail !in h.complaints && c < |h.statuses| && b < |h.occupancy|
    ensures RejectAvail !in Prepared(h, c, b, false).complaints && RejectAvail !in Dismissed(h, c, b, false, fast, slow).complaints
  {
  }

  lemma CustomersRejectNobody(h: Shop, c: nat)
    requires NobodyRejected(h) && c < |h.statuses|
    ensures NobodyRejected(Accepted(h, c)) && NobodyRejected(Departed(h, c))
  {
  }

  lemma ArrivalRejectsNobody(h: Shop)
    requires NobodyRejected(h)
    ensures NobodyRejected(Arrived(h))
  {
  }

  ghost predicate NobodyTurned(s: Sim) { NobodyRejected(s.shop) && forall c :: 0 <= c < |s.customers| ==> s.customers[c] != TurnAway }

  lemma StepTurnsNobody(s: Sim, a: Step)
    requires Readable(s) && Enabled(s, a) && NobodyTurned(s)
    ensures NobodyTurned(Next(s, a, false))
  {
    hide NobodyRejected, Accepted, Prepared, Dismissed, Departed;
    match a
    case Arrival => ArrivalRejectsNobody(s.shop);
    case Act(c) => CustomersRejectNobody(s.shop, c);
    case Work(b, fast, slow) =>
      if Unserved(s.barbers[b]) { CutsRejectNobody(s.shop, s.barbers[b].c, b, fast, slow); }
  }

  lemma {:induction false} RunTurnsNobody(s: Sim, steps: seq<Step>, t: Sim)
    requires Inv(s) && NobodyTurned(s) && Leads(s, steps, t, false)
    ensures NobodyTurned(t)
    decreases |steps|
  {
    hide Inv, Readable, Next, Enabled, NobodyTurned;
    if steps != [] {
      StepKeeps(s, steps[0], false);
      StepTurnsNobody(s, steps[0]);
      RunTurnsNobody(Next(s, steps[0], false), steps[1..], t);
    }
  }

  /** Whatever the interleaving, the monitor complains of nothing but the clock, or a reject with a chair free;
      when a failed trywait exits, not even of that. */
  lemma NoComplaints(max: nat, barbers: nat, visitors: nat, steps: seq<Step>, t: Sim, rejects: bool)
    requires Leads(Start(max, barbers, visitors), steps, t, rejects)
    ensures forall x :: x in t.shop.complaints ==> x.CutFast? || x.CutSlow? || (rejects && x.RejectAvail?)
  {
    StartOk(max, barbers, visitors);
    RunKeeps(Start(max, barbers, visitors), steps, t, rejects);
    assert Content(t.shop.complaints);
    assert forall x :: x in t.shop.complaints ==> Excusable(x);
    if !rejects { RunTurnsNobody(Start(max, barbers, visitors), steps, t); }
  }

  lemma {:induction false} OneMoreStep(s: Sim, steps: seq<Step>, t: Sim, a: Step, rejects: bool)
    requires Leads(s, steps, t, rejects) && Enabled(t, a) && Readable(t)
    ensures Leads(s, steps + [a], Next(t, a, rejects), rejects)
    decreases |steps|
  {
    hide Readable, Next, Enabled;
    if steps == [] {
      assert [a][1..] == [] && Leads(Next(t, a, rejects), [], Next(t, a, rejects), rejects);
      assert steps + [a] == [a];
    } else {
      assert (steps + [a])[0] == steps[0] && (steps + [a])[1..] == steps[1..] + [a];
      if Readable(s) { OneMoreStep(Next(s, steps[0], rejects), steps[1..], t, a, rejects); }
    }
  }

  /** An action from a state of the invariant extends the run. */
  lemma Extend(s: Sim, steps: seq<Step>, t: Sim, a: Step, rejects: bool) returns (more: seq<Step>, u: Sim)
    requires Leads(s, steps, t, rejects) && Inv(t) && Enabled(t, a)
    ensures Readable(t) && u == Next(t, a, rejects) && Inv(u) && Leads(s, more, u, rejects)
  {
    hide Inv, Readable, Next, Enabled;
    StepKeeps(t, a, rejects);
    OneMoreStep(s, steps, t, a, rejects);
    more, u := steps + [a], Next(t, a, rejects);
  }

  // ---- the ring is a queue --------------------------------------------------------------------

  /** What the ring holds between front and rear, read off the array. */
  ghost function Queue(s: Sim): seq<Option<nat>>
    requires |s.chairs| == s.max && s.front <= s.rear && (0 < s.max || s.front == s.rear)
  {
    seq(s.rear - s.front, i requires 0 <= i < s.rear - s.front => s.chairs[(s.front + 1 + i) % s.max])
  }

  /** The customers that sit and wait, oldest first. */
  ghost function Seating(s: Sim): seq<nat> requires s.front <= |s.order| { s.order[s.front..] }

  lemma QueueIsSeating(s: Sim)
    requires Inv(s)
    ensures Sizes(s) && s.rear - s.front <= s.max
    ensures |Queue(s)| == |Seating(s)| && forall i :: 0 <= i < |Queue(s)| ==> Queue(s)[i] == Some(Seating(s)[i])
  {
    hide Accounts, Gauges, Born, Ordered, Early, Late, BarbersOk, Rooms, History, WakesOk, Content, Count;
    forall i | 0 <= i < s.rear - s.front ensures 0 < s.max && s.chairs[(s.front + 1 + i) % s.max] == Some(Seating(s)[i]) {
      assert s.order[s.front + i] == Seating(s)[i];
    }
  }

  lemma SeatingMoves(s: Sim, a: Step, rejects: bool)
    requires Readable(s) && Enabled(s, a) && Sizes(s) && Sizes(Next(s, a, rejects))
    ensures
      var t := Next(s, a, rejects);
      if a.Act? && s.customers[a.c].Sitting? then Seating(t) == Seating(s) + [a.c]
      else if a.Work? && s.barbers[a.b].Fetching? then s.front < t.front && Seating(t) == Seating(s)[1..]
      else Seating(t) == Seating(s)
  {
    hide Accepted, TurnedAway, Prepared, Dismissed, Departed;
  }

  /** What a step does to the ring: sitting down appends, a barber takes the oldest, nothing else changes it. */
  ghost predicate Queues(s: Sim, a: Step, t: Sim)
    requires Sizes(s) && s.rear - s.front <= s.max && Sizes(t) && t.rear - t.front <= t.max
  {
    if a.Act? && a.c < |s.customers| && s.customers[a.c].Sitting? then Queue(t) == Queue(s) + [Some(a.c)]
    else if a.Work? && a.b < |s.barbers| && s.barbers[a.b].Fetching? then
      |Queue(s)| > 0 && a.b < |t.barbers| && t.barbers[a.b].Preparing? && Queue(s)[0] == Some(t.barbers[a.b].c) && Queue(t) == Queue(s)[1..]
    else Queue(t) == Queue(s)
  }

  /** Over any run the ring is a queue of at most max customers, and an insert overwrites nobody that waits. */
  lemma RingIsAQueue(s: Sim, a: Step, rejects: bool)
    requires Inv(s) && Enabled(s, a)
    ensures Readable(s) && Sizes(s) && Sizes(Next(s, a, rejects))
    ensures s.rear - s.front <= s.max && Next(s, a, rejects).rear - Next(s, a, rejects).front <= Next(s, a, rejects).max
    ensures Queues(s, a, Next(s, a, rejects))
  {
    hide Inv, Accepted, TurnedAway, Prepared, Dismissed, Departed;
    StepKeeps(s, a, rejects);
    QueueIsSeating(s);
    QueueIsSeating(Next(s, a, rejects));
    SeatingMoves(s, a, rejects);
  }

  // ---- first come, first served ---------------------------------------------------------------

  /** One haircut at a time: a barber keeps the mutex from fetching its customer to waking it. */
  lemma OneHaircut(s: Sim)
    requires Accounts(s)
    ensures Count(s.barbers, AtFinishing) <= Count(s.barbers, Unserved) <= Count(s.barbers, Unwoken) <= 1
    ensures Count(s.barbers, AtPreparing) + Count(s.barbers, AtFinishing) == Count(s.barbers, Unserved)
  {
    CountSubset(s.barbers, Unserved, AtFinishing);
    CountSubset(s.barbers, Unwoken, Unserved);
    CountSubset(s.barbers, HoldsMutexB, Unwoken);
    CountSplits(s.barbers);
  }

  lemma {:induction false} CountSplits(bs: seq<Barber>)
    ensures Count(bs, AtPreparing) + Count(bs, AtFinishing) == Count(bs, Unserved)
  {
    if bs != [] { CountSplits(bs[1..]); }
  }

  /** Customers sit down, are prepared and are dismissed in one order, each once, and one haircut is on at most. */
  lemma FirstComeFirstServed(max: nat, barbers: nat, visitors: nat, steps: seq<Step>, t: Sim, rejects: bool)
    requires Leads(Start(max, barbers, visitors), steps, t, rejects)
    ensures Distinct(t.order) && t.prepared <= t.order && t.dismissed <= t.prepared
    ensures |t.prepared| <= |t.dismissed| + 1 && 0 <= t.shop.cutting <= 1
  {
    StartOk(max, barbers, visitors);
    hide Leads, Readable, Count, Born, Ring, Early, Late, BarbersOk, Rooms, WakesOk, Content;
    RunKeeps(Start(max, barbers, visitors), steps, t, rejects);
    OneHaircut(t);
  }

  /** The customer fetched last is in the hands of a barber if it is not served yet. */
  lemma InHands(s: Sim, k: nat)
    requires Inv(s) && Served(s) <= k < s.front
    ensures k < |s.order| && (Has(s.shop.statuses, s.order[k], Waiting) || Has(s.shop.statuses, s.order[k], Cutting))
  {
    hide Count, Born, Ring, Early, Late, Rooms, WakesOk, Content, Ordered, History;
    OneHaircut(s);
    var b := CountFinds(s.barbers, Unserved);
    assert BarberOk(s.barbers[b], s.order, s.front, s.shop.statuses);
  }

  /** The monitor calls a customer done exactly if it was dismissed. */
  lemma DoneIsDismissed(s: Sim, c: nat)
    requires Inv(s) && c < |s.shop.statuses|
    ensures s.shop.statuses[c] == Done <==> c in s.dismissed
  {
    hide Count, Ring, BarbersOk, Rooms, WakesOk, Content, Accounts, Gauges;
    if c in s.order {
      var k :| 0 <= k < |s.order| && s.order[k] == c;
      if k < Served(s) {
        assert s.dismissed[k] == c && Has(s.shop.statuses, s.order[k], Done);
      } else {
        if k < s.front { InHands(s, k); } else { assert Has(s.shop.statuses, s.order[k], Waiting); }
      }
    } else {
      assert c !in s.dismissed;
    }
  }

  // ---- every run ends -------------------------------------------------------------------------

  /** The most actions a customer can still cause, its haircut included. */
  function StepsLeft(c: Customer): nat {
    match c
    case NotYet => 17
    case AtDoor => 16
    case TurnAway => 2
    case HasSlot => 15
    case Entering => 14
    case Sitting => 13
    case Releasing => 12
    case Announcing => 11
    case Seated => 2
    case Leaving => 1
    case Gone => 0
  }

  function StepsInTurn(b: Barber): nat {
    match b
    case Idle => 0
    case Locking => 7
    case Fetching => 6
    case Preparing(_) => 5
    case Finishing(_) => 4
    case Waking(_) => 3
    case Unlocking => 2
    case Freeing => 1
  }

  ghost function Measure(s: Sim): nat {
    Sum(s.customers, StepsLeft) + 8 * s.items + Sum(s.barbers, StepsInTurn) + if s.exited then 0 else 1
  }

  lemma ActDecreases(s: Sim, c: nat, rejects: bool)
    requires Readable(s) && Enabled(s, Act(c))
    ensures Measure(ActOf(s, c, rejects)) < Measure(s)
  {
    hide Readable, Sum, Accepted, TurnedAway, Departed;
    SumUpdate(s.customers, c, if ActOf(s, c, rejects).exited then s.customers[c] else ActOf(s, c, rejects).customers[c], StepsLeft);
    assert s.customers[c := s.customers[c]] == s.customers;
  }

  lemma WorkDecreases(s: Sim, b: nat, fast: bool, slow: bool)
    requires Readable(s) && Enabled(s, Work(b, fast, slow))
    ensures Measure(WorkOf(s, b, fast, slow)) < Measure(s)
  {
    hide Readable, Sum, Prepared, Dismissed;
    SumUpdate(s.barbers, b, WorkOf(s, b, fast, slow).barbers[b], StepsInTurn);
  }

  lemma StepDecreases(s: Sim, a: Step, rejects: bool)
    requires Readable(s) && Enabled(s, a)
    ensures Measure(Next(s, a, rejects)) < Measure(s)
  {
    match a
    case Arrival => SumUpdate(s.customers, |s.shop.statuses|, AtDoor, StepsLeft);
    case Act(c) => ActDecreases(s, c, rejects);
    case Work(b, fast, slow) => WorkDecreases(s, b, fast, slow);
  }

  lemma {:induction false} RunDecreases(s: Sim, steps: seq<Step>, t: Sim, rejects: bool)
    requires Inv(s) && Leads(s, steps, t, rejects)
    ensures |steps| + Measure(t) <= Measure(s)
    decreases |steps|
  {
    hide Inv, Readable, Next, Enabled, Measure;
    if steps != [] {
      StepKeeps(s, steps[0], rejects);
      StepDecreases(s, steps[0], rejects);
      RunDecreases(Next(s, steps[0], rejects), steps[1..], t, rejects);
    }
  }

  /** No interleaving takes more than 17 actions a customer, and the exit. */
  lemma RunsAreBounded(max: nat, barbers: nat, visitors: nat, steps: seq<Step>, t: Sim, rejects: bool)
    requires Leads(Start(max, barbers, visitors), steps, t, rejects)
    ensures |steps| <= 17 * visitors + 1
  {
    hide Inv, Leads;
    StartOk(max, barbers, visitors);
    RunDecreases(Start(max, barbers, visitors), steps, t, rejects);
    SumConst(visitors, NotYet, StepsLeft);
    SumConst(barbers, Idle, StepsInTurn);
  }

  // ---- and ends well --------------------------------------------------------------------------

  /** No thread can move. */
  ghost predicate Stuck(s: Sim) { forall a: Step :: !Enabled(s, a) }

  /** Where everyone stands when nobody can move: first the customers outside, then the mutex. */
  lemma StuckStands(s: Sim)
    requires Sizes(s) && Accounts(s) && Born(s.customers, s.shop.statuses) && Stuck(s) && !s.exited
    ensures s.mutex == 1 && |s.shop.statuses| == |s.customers|
    ensures forall c :: 0 <= c < |s.customers| ==> s.customers[c].Gone? || (s.customers[c].Seated? && s.wake[c] == 0)
    ensures forall b :: 0 <= b < |s.barbers| ==> s.barbers[b].Idle? && s.items == 0
  {
    assert !Enabled(s, Arrival);
    forall c | 0 <= c < |s.customers| ensures !HoldsMutexC(s.customers[c]) { assert !Enabled(s, Act(c)); }
    forall b | 0 <= b < |s.barbers| ensures !HoldsMutexB(s.barbers[b]) { assert !Enabled(s, Work(b, false, false)); }
    CountNone(s.customers, HoldsMutexC);
    CountNone(s.barbers, HoldsMutexB);
    forall c | 0 <= c < |s.customers| ensures s.customers[c].Gone? || (s.customers[c].Seated? && s.wake[c] == 0) {
      assert !Enabled(s, Act(c));
    }
    forall b | 0 <= b < |s.barbers| ensures s.barbers[b].Idle? && s.items == 0 { assert !Enabled(s, Work(b, false, false)); }
  }

  /** Then nothing is held, so every seat is empty and every customer who sat down has been woken. */
  lemma StuckCounts(s: Sim)
    requires Inv(s) && Stuck(s) && !s.exited && |s.barbers| > 0
    ensures s.front == s.rear == |s.order| && s.slots == s.max && s.items == 0
    ensures Begun(s) == Served(s) == Woken(s) == s.front
    ensures s.shop.pending == s.shop.waiting == s.shop.cutting == 0
  {
    hide Stuck, Count, Ring, Ordered, Early, Late, BarbersOk, Rooms, History, WakesOk, Content;
    StuckStands(s);
    assert s.barbers[0].Idle?;
    CountNone(s.customers, HoldsSlot);
    CountNone(s.customers, Unposted);
    CountNone(s.customers, AtSitting);
    CountNone(s.customers, AtPending);
    CountNone(s.barbers, HoldsTurn);
    CountNone(s.barbers, Unfetched);
    NobodyServing(s);
  }

  lemma StuckGone(s: Sim, c: nat)
    requires Inv(s) && Stuck(s) && !s.exited && |s.barbers| > 0 && c < |s.customers|
    ensures s.customers[c].Gone?
  {
    hide Stuck, Count, Ring, Early, Late, BarbersOk, Rooms, History, Content, Accounts, Gauges;
    StuckStands(s);
    StuckCounts(s);
    if s.customers[c].Seated? {
      assert c in s.order;
    }
  }

  /** Everyone is gone, and everyone who sat down was prepared and dismissed, in that order. */
  ghost predicate AllServed(s: Sim) {
    && |s.shop.statuses| == |s.customers|
    && (forall c :: 0 <= c < |s.customers| ==> s.customers[c].Gone? && (s.shop.statuses[c] == Rejected || c in s.dismissed))
    && s.order == s.prepared == s.dismissed
    && s.shop.pending == s.shop.waiting == s.shop.cutting == 0
    && s.mutex == 1 && s.slots == s.max && s.items == 0
  }

  /** No deadlock: with a barber around, a run can only stop once everyone is served, or by exit. */
  lemma StuckIsServed(s: Sim)
    requires Inv(s) && Stuck(s) && !s.exited && |s.barbers| > 0
    ensures AllServed(s)
  {
    hide Stuck, Count, Inv;
    InvViews(s);
    StuckStands(s);
    StuckCounts(s);
    forall c | 0 <= c < |s.customers| ensures s.customers[c].Gone? && (s.shop.statuses[c] == Rejected || c in s.dismissed) {
      StuckGone(s, c);
      LeaversAreDone(s, c);
      DoneIsDismissed(s, c);
    }
  }

  lemma InvViews(s: Sim)
    requires Inv(s)
    ensures Sizes(s) && Accounts(s) && Born(s.customers, s.shop.statuses)
    ensures History(s.order, s.prepared, s.dismissed, Begun(s), Served(s))
  {
  }

  lemma {:induction false} RunKeepsCrew(s: Sim, steps: seq<Step>, t: Sim, rejects: bool)
    requires Inv(s) && Leads(s, steps, t, rejects)
    ensures |t.barbers| == |s.barbers| && |t.customers| == |s.customers| && t.max == s.max
    ensures rejects && !s.exited ==> !t.exited
    decreases |steps|
  {
    hide Inv, Readable;
    if steps != [] {
      StepKeeps(s, steps[0], rejects);
      RunKeepsCrew(Next(s, steps[0], rejects), steps[1..], t, rejects);
    }
  }

  /** A run that cannot go on ends with all visitors served or turned away, whatever the interleaving; if a
      failed trywait exits, the only other way to stop is that exit. */
  lemma EveryoneIsServed(max: nat, barbers: nat, visitors: nat, steps: seq<Step>, t: Sim, rejects: bool)
    requires barbers > 0 && Leads(Start(max, barbers, visitors), steps, t, rejects) && Stuck(t)
    ensures |t.customers| == visitors && t.max == max
    ensures (rejects ==> !t.exited) && (!t.exited ==> AllServed(t))
    ensures !rejects && !t.exited ==> forall c :: c in t.order <==> 0 <= c < visitors
  {
    hide Inv, Leads, Stuck;
    StartOk(max, barbers, visitors);
    RunKeeps(Start(max, barbers, visitors), steps, t, rejects);
    RunKeepsCrew(Start(max, barbers, visitors), steps, t, rejects);
    if !t.exited { StuckIsServed(t); }
    if !rejects { RunTurnsNobody(Start(max, barbers, visitors), steps, t); }
    if !rejects && !t.exited { OrderIsVisitors(t); }
  }

  lemma OrderIsVisitors(t: Sim)
    requires Inv(t) && AllServed(t) && NobodyTurned(t)
    ensures forall c :: c in t.order <==> 0 <= c < |t.customers|
  {
  }
}
