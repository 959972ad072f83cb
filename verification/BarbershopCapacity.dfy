/** When the slots of the barbershop can run out: exactly if there are more visitors than chairs. */
module BarbershopCapacity {
  import opened Monitor
  import opened Sequences
  import opened Barbershop
  import opened BarbershopSafety
  import opened BarbershopRuns

  /** Customers who have not sat down and are not turned away. */
  predicate Outside(c: Customer) { c.NotYet? || c.AtDoor? || c.HasSlot? || c.Entering? || c.Sitting? }

  /** Those of them who hold a slot. */
  predicate OnTheWay(c: Customer) { c.HasSlot? || c.Entering? || c.Sitting? }

  /** Barbers who have taken their customer out of the ring and not yet freed its slot. */
  predicate Fetched(b: Barber) { !b.Idle? && !b.Locking? && !b.Fetching? }

  /** No slot is held for nobody: a barber's is that of someone fetched, and everyone visits once. */
  ghost predicate Thrifty(s: Sim) {
    Count(s.barbers, Fetched) <= s.front && |s.order| + Count(s.customers, Outside) <= |s.customers|
  }

  lemma StartThrifty(max: nat, barbers: nat, visitors: nat)
    ensures Thrifty(Start(max, barbers, visitors))
  {
    CountConst(barbers, Idle, Fetched);
    CountAtMost(Start(max, barbers, visitors).customers, Outside);
  }

  lemma {:induction false} CountAtMost<T>(s: seq<T>, p: T -> bool)
    ensures Count(s, p) <= |s|
  {
    if s != [] { CountAtMost(s[1..], p); }
  }

  lemma StepThrifty(s: Sim, a: Step, rejects: bool)
    requires Readable(s) && Enabled(s, a) && Thrifty(s)
    ensures Thrifty(Next(s, a, rejects))
  {
    hide Readable, Thrifty, ActOf, WorkOf, Enabled;
    match a
    case Arrival => ArrivalThrifty(s, rejects);
    case Act(c) => ActThrifty(s, c, rejects);
    case Work(b, fast, slow) => WorkThrifty(s, b, fast, slow);
  }

  lemma ArrivalThrifty(s: Sim, rejects: bool)
    requires Readable(s) && Enabled(s, Arrival) && Thrifty(s)
    ensures Thrifty(Next(s, Arrival, rejects))
  {
    assert s.customers[|s.shop.statuses|] == NotYet;
    hide Readable, Count;
    CountUpdate(s.customers, |s.shop.statuses|, AtDoor, Outside);
  }

  lemma WorkThrifty(s: Sim, b: nat, fast: bool, slow: bool)
    requires Readable(s) && Enabled(s, Work(b, fast, slow)) && Thrifty(s)
    ensures Thrifty(WorkOf(s, b, fast, slow))
  {
    hide Readable, Count, Prepared, Dismissed;
    CountUpdate(s.barbers, b, WorkOf(s, b, fast, slow).barbers[b], Fetched);
  }

  lemma ActThrifty(s: Sim, c: nat, rejects: bool)
    requires Readable(s) && Enabled(s, Act(c)) && Thrifty(s)
    ensures Thrifty(ActOf(s, c, rejects))
  {
    hide Readable, Count, Accepted, TurnedAway, Departed;
    var pc := if ActOf(s, c, rejects).exited then s.customers[c] else ActOf(s, c, rejects).customers[c];
    CountUpdate(s.customers, c, pc, Outside);
    assert s.customers[c := s.customers[c]] == s.customers;
  }

  lemma {:induction false} CustomersSplit(cs: seq<Customer>)
    ensures Count(cs, HoldsSlot) == Count(cs, OnTheWay) + Count(cs, Unposted)
    ensures Count(cs, OnTheWay) <= Count(cs, Outside)
  {
    if cs != [] { CustomersSplit(cs[1..]); }
  }

  lemma {:induction false} BarbersSplit(bs: seq<Barber>)
    ensures Count(bs, HoldsTurn) == Count(bs, Unfetched) + Count(bs, Fetched)
  {
    if bs != [] { BarbersSplit(bs[1..]); }
  }

  /** With no more visitors than chairs, whoever is at the door finds a slot. */
  lemma DoorIsOpen(s: Sim, c: nat)
    requires Sizes(s) && Accounts(s) && Thrifty(s) && |s.customers| <= s.max && c < |s.customers| && s.customers[c].AtDoor?
    ensures s.slots > 0
  {
    CustomersSplit(s.customers);
    BarbersSplit(s.barbers);
    CountMore(s.customers, c, Outside, OnTheWay);
  }

  // ---- enough chairs --------------------------------------------------------------------------

  /** Nobody was turned away, and the process has not exited. */
  ghost predicate Welcoming(s: Sim) { Inv(s) && Thrifty(s) && NobodyTurned(s) && !s.exited && |s.customers| <= s.max }

  lemma StepWelcomes(s: Sim, a: Step, rejects: bool)
    requires Welcoming(s) && Enabled(s, a)
    ensures Readable(s) && Welcoming(Next(s, a, rejects))
  {
    StepKeeps(s, a, rejects);
    StepThrifty(s, a, rejects);
    InvViews(s);
    if a.Act? && s.customers[a.c].AtDoor? { DoorIsOpen(s, a.c); }
    hide Inv, Thrifty, Readable, NobodyTurned;
    StepTurnsNobody(s, a);
    SameWithSlots(s, a, rejects);
  }

  /** Where a slot is free, it does not matter what a failed trywait does. */
  lemma SameWithSlots(s: Sim, a: Step, rejects: bool)
    requires Readable(s) && Enabled(s, a) && (a.Act? && s.customers[a.c].AtDoor? ==> s.slots > 0)
    ensures Next(s, a, rejects) == Next(s, a, false)
    ensures !Next(s, a, false).exited && |Next(s, a, false).customers| == |s.customers| && Next(s, a, false).max == s.max
  {
    hide Readable, Accepted, TurnedAway, Prepared, Dismissed, Departed;
  }

  lemma {:induction false} RunWelcomes(s: Sim, steps: seq<Step>, t: Sim, rejects: bool)
    requires Welcoming(s) && Leads(s, steps, t, rejects)
    ensures Welcoming(t)
    decreases |steps|
  {
    hide Welcoming, Readable, Next, Enabled;
    if steps != [] {
      StepWelcomes(s, steps[0], rejects);
      RunWelcomes(Next(s, steps[0], rejects), steps[1..], t, rejects);
    }
  }

  /** With at least as many chairs as visitors, no run exits and none turns anybody away, whichever way a failed
      trywait goes; with a barber around, every run ends with all visitors dismissed. */
  lemma EnoughChairs(max: nat, barbers: nat, visitors: nat, steps: seq<Step>, t: Sim, rejects: bool)
    requires visitors <= max && Leads(Start(max, barbers, visitors), steps, t, rejects)
    ensures !t.exited && NobodyTurned(t)
    ensures barbers > 0 && Stuck(t) ==> AllServed(t) && forall c :: c in t.dismissed <==> 0 <= c < visitors
  {
    var s := Start(max, barbers, visitors);
    StartOk(max, barbers, visitors);
    StartThrifty(max, barbers, visitors);
    hide Inv, Thrifty, Leads, Stuck, AllServed;
    RunWelcomes(s, steps, t, rejects);
    RunKeepsCrew(s, steps, t, rejects);
    if barbers > 0 && Stuck(t) {
      StuckIsServed(t);
      OrderIsVisitors(t);
      ServedIsOrder(t);
    }
  }

  lemma ServedIsOrder(t: Sim)
    requires AllServed(t)
    ensures t.order == t.dismissed
  {
  }

  // ---- too few chairs -------------------------------------------------------------------------

  /** n visitors have come in and hold a slot each; nothing else has happened. */
  ghost predicate Crowded(t: Sim, max: nat, n: nat, visitors: nat) {
    && Inv(t) && !t.exited && |t.customers| == visitors && t.slots == max - n
    && |t.shop.statuses| == n && t.shop.chairs == max && t.shop.waiting == 0
  }

  lemma ComesIn(s: Sim, steps: seq<Step>, t: Sim, max: nat, n: nat, visitors: nat, rejects: bool) returns (more: seq<Step>, u: Sim)
    requires Leads(s, steps, t, rejects) && Crowded(t, max, n, visitors) && n < max && n < visitors
    ensures Leads(s, more, u, rejects) && Crowded(u, max, n + 1, visitors)
  {
    hide Inv, Leads, Readable;
    more, u := Extend(s, steps, t, Arrival, rejects);
    more, u := Extend(s, more, u, Act(n), rejects);
  }

  lemma {:induction false} FillUp(max: nat, barbers: nat, visitors: nat, n: nat, rejects: bool) returns (steps: seq<Step>, t: Sim)
    requires n <= max && n <= visitors
    ensures Leads(Start(max, barbers, visitors), steps, t, rejects) && Crowded(t, max, n, visitors)
  {
    if n == 0 {
      StartOk(max, barbers, visitors);
      steps, t := [], Start(max, barbers, visitors);
    } else {
      steps, t := FillUp(max, barbers, visitors, n - 1, rejects);
      steps, t := ComesIn(Start(max, barbers, visitors), steps, t, max, n - 1, visitors, rejects);
    }
  }

  /** One visitor more than chairs comes to the door. */
  lemma OneTooMany(max: nat, barbers: nat, visitors: nat, rejects: bool) returns (steps: seq<Step>, t: Sim)
    requires visitors > max
    ensures Leads(Start(max, barbers, visitors), steps, t, rejects) && Inv(t)
    ensures |t.customers| == visitors && |t.shop.statuses| == max + 1 && t.shop.statuses[max] == Pending
    ensures t.shop.chairs == max && t.shop.waiting == 0
    ensures if rejects then !t.exited && t.customers[max].TurnAway? else t.exited
  {
    steps, t := FillUp(max, barbers, visitors, max, rejects);
    hide Inv, Leads, Readable;
    steps, t := Extend(Start(max, barbers, visitors), steps, t, Arrival, rejects);
    steps, t := Extend(Start(max, barbers, visitors), steps, t, Act(max), rejects);
  }

  /** As the code is, a failed trywait exits: this can happen exactly if there are more visitors than chairs. */
  lemma ExitsIff(max: nat, barbers: nat, visitors: nat)
    ensures (exists steps, t :: Leads(Start(max, barbers, visitors), steps, t, false) && t.exited) <==> visitors > max
  {
    hide Leads;
    if visitors > max {
      var steps, t := OneTooMany(max, barbers, visitors, false);
    } else {
      forall steps, t | Leads(Start(max, barbers, visitors), steps, t, false) ensures !t.exited {
        EnoughChairs(max, barbers, visitors, steps, t, false);
      }
    }
  }

  lemma TurnedWithChairs(max: nat, barbers: nat, visitors: nat)
    requires visitors > max > 0
    ensures exists steps, t :: Leads(Start(max, barbers, visitors), steps, t, true) && RejectAvail in t.shop.complaints
  {
    hide Leads, Inv, Readable;
    var steps, t := OneTooMany(max, barbers, visitors, true);
    steps, t := Extend(Start(max, barbers, visitors), steps, t, Act(max), true);
  }

  /** Were it to return, the monitor could complain of a reject with a chair free exactly if there are more visitors
      than chairs, and a chair: slots run out before the chairs do, as they are taken at the door and freed
      after the haircut. */
  lemma RejectAvailIff(max: nat, barbers: nat, visitors: nat)
    ensures (exists steps, t :: Leads(Start(max, barbers, visitors), steps, t, true) && RejectAvail in t.shop.complaints)
            <==> visitors > max > 0
  {
    hide Leads;
    if visitors > max > 0 {
      TurnedWithChairs(max, barbers, visitors);
    } else {
      forall steps, t | Leads(Start(max, barbers, visitors), steps, t, true) ensures RejectAvail !in t.shop.complaints {
        if visitors <= max { EnoughChairs(max, barbers, visitors, steps, t, true); } else { NeverBlamed(barbers, visitors, steps, t); }
      }
    }
  }

  /** Without a single chair none is ever free. */
  ghost predicate Chairless(s: Sim) { Inv(s) && s.max == 0 && RejectAvail !in s.shop.complaints }

  lemma NoChairNoBlame(h: Shop, c: nat)
    requires RejectAvail !in h.complaints && h.chairs == 0 && h.waiting >= 0 && c < |h.statuses|
    ensures RejectAvail !in Accepted(h, c).complaints && RejectAvail !in TurnedAway(h, c).complaints
    ensures RejectAvail !in Departed(h, c).complaints
  {
  }

  lemma ActChairless(s: Sim, c: nat)
    requires Readable(s) && Enabled(s, Act(c)) && s.shop.chairs == 0 && s.shop.waiting >= 0 && RejectAvail !in s.shop.complaints
    ensures RejectAvail !in ActOf(s, c, true).shop.complaints && ActOf(s, c, true).max == s.max
  {
    hide Accepted, TurnedAway, Departed;
    if c < |s.shop.statuses| { NoChairNoBlame(s.shop, c); }
  }

  lemma WorkChairless(s: Sim, b: nat, fast: bool, slow: bool)
    requires Readable(s) && Enabled(s, Work(b, fast, slow)) && RejectAvail !in s.shop.complaints
    ensures RejectAvail !in WorkOf(s, b, fast, slow).shop.complaints && WorkOf(s, b, fast, slow).max == s.max
  {
    hide Prepared, Dismissed;
    if Unserved(s.barbers[b]) { CutsKeepRejections(s.shop, s.barbers[b].c, b, fast, slow); }
  }

  lemma StepChairless(s: Sim, a: Step)
    requires Chairless(s) && Enabled(s, a)
    ensures Readable(s) && Chairless(Next(s, a, true))
  {
    StepKeeps(s, a, true);
    InvViews(s);
    assert s.shop.chairs == 0 && s.shop.waiting >= 0;
    hide Inv, Readable, ActOf, WorkOf, Enabled;
    match a
    case Arrival =>
    case Act(c) => ActChairless(s, c);
    case Work(b, fast, slow) => WorkChairless(s, b, fast, slow);
  }

  lemma {:induction false} RunChairless(s: Sim, steps: seq<Step>, t: Sim)
    requires Chairless(s) && Leads(s, steps, t, true)
    ensures Chairless(t)
    decreases |steps|
  {
    hide Chairless, Readable, Next, Enabled;
    if steps != [] {
      StepChairless(s, steps[0]);
      RunChairless(Next(s, steps[0], true), steps[1..], t);
    }
  }

  lemma NeverBlamed(barbers: nat, visitors: nat, steps: seq<Step>, t: Sim)
    requires Leads(Start(0, barbers, visitors), steps, t, true)
    ensures RejectAvail !in t.shop.complaints
  {
    hide Leads;
    StartOk(0, barbers, visitors);
    RunChairless(Start(0, barbers, visitors), steps, t);
  }
}
