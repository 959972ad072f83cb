/** barber_work keeps the invariant too; with it, every run of the barbershop is safe. */
module BarbershopSafety {
  import opened Monitor
  import opened Sequences
  import opened Barbershop

  // ---- barbers' actions keep the invariant ----------------------------------------------------

  /** How the counts move when barber b goes on to pc. */
  lemma BarberMoves(s: seq<Barber>, b: nat, pc: Barber)
    requires b < |s|
    ensures var t := s[b := pc];
      && Count(t, HoldsMutexB) == Count(s, HoldsMutexB) - (if HoldsMutexB(s[b]) then 1 else 0) + (if HoldsMutexB(pc) then 1 else 0)
      && Count(t, HoldsTurn) == Count(s, HoldsTurn) - (if HoldsTurn(s[b]) then 1 else 0) + (if HoldsTurn(pc) then 1 else 0)
      && Count(t, Unfetched) == Count(s, Unfetched) - (if Unfetched(s[b]) then 1 else 0) + (if Unfetched(pc) then 1 else 0)
      && Count(t, AtPreparing) == Count(s, AtPreparing) - (if AtPreparing(s[b]) then 1 else 0) + (if AtPreparing(pc) then 1 else 0)
      && Count(t, AtFinishing) == Count(s, AtFinishing) - (if AtFinishing(s[b]) then 1 else 0) + (if AtFinishing(pc) then 1 else 0)
      && Count(t, Unserved) == Count(s, Unserved) - (if Unserved(s[b]) then 1 else 0) + (if Unserved(pc) then 1 else 0)
      && Count(t, Unwoken) == Count(s, Unwoken) - (if Unwoken(s[b]) then 1 else 0) + (if Unwoken(pc) then 1 else 0)
  {
    CountUpdate(s, b, pc, HoldsMutexB);
    CountUpdate(s, b, pc, HoldsTurn);
    CountUpdate(s, b, pc, Unfetched);
    CountUpdate(s, b, pc, AtPreparing);
    CountUpdate(s, b, pc, AtFinishing);
    CountUpdate(s, b, pc, Unserved);
    CountUpdate(s, b, pc, Unwoken);
  }

  /** A barber that serves nobody before or after its action. */
  predicate Quiet(b: Barber) { !b.Preparing? && !b.Finishing? && !b.Waking? }

  lemma QuietMove(bs: seq<Barber>, b: nat, pc: Barber, order: seq<nat>, front: nat, st: seq<Status>, occupancy: seq<Option<nat>>)
    requires b < |bs| && Quiet(bs[b]) && Quiet(pc)
    requires BarbersOk(bs, order, front, st) && Rooms(bs, occupancy)
    ensures BarbersOk(bs[b := pc], order, front, st) && Rooms(bs[b := pc], occupancy)
  {
  }

  lemma IdleKeeps(s: Sim, b: nat, fast: bool, slow: bool)
    requires Inv(s) && Enabled(s, Work(b, fast, slow)) && Readable(s) && s.barbers[b].Idle?
    ensures Inv(WorkOf(s, b, fast, slow))
  {
    hide Readable, Born, Ring, Ordered, Early, Late, BarbersOk, Rooms, History, WakesOk, Content, Count;
    BarberMoves(s.barbers, b, Locking);
    QuietMove(s.barbers, b, Locking, s.order, s.front, s.shop.statuses, s.shop.occupancy);
  }

  lemma LockingKeeps(s: Sim, b: nat, fast: bool, slow: bool)
    requires Inv(s) && Enabled(s, Work(b, fast, slow)) && Readable(s) && s.barbers[b].Locking?
    ensures Inv(WorkOf(s, b, fast, slow))
  {
    hide Readable, Born, Ring, Ordered, Early, Late, BarbersOk, Rooms, History, WakesOk, Content, Count;
    BarberMoves(s.barbers, b, Fetching);
    QuietMove(s.barbers, b, Fetching, s.order, s.front, s.shop.statuses, s.shop.occupancy);
  }

  lemma UnlockingKeeps(s: Sim, b: nat, fast: bool, slow: bool)
    requires Inv(s) && Enabled(s, Work(b, fast, slow)) && Readable(s) && s.barbers[b].Unlocking?
    ensures Inv(WorkOf(s, b, fast, slow))
  {
    hide Readable, Born, Ring, Ordered, Early, Late, BarbersOk, Rooms, History, WakesOk, Content, Count;
    BarberMoves(s.barbers, b, Freeing);
    QuietMove(s.barbers, b, Freeing, s.order, s.front, s.shop.statuses, s.shop.occupancy);
  }

  lemma FreeingKeeps(s: Sim, b: nat, fast: bool, slow: bool)
    requires Inv(s) && Enabled(s, Work(b, fast, slow)) && Readable(s) && s.barbers[b].Freeing?
    ensures Inv(WorkOf(s, b, fast, slow))
  {
    hide Readable, Born, Ring, Ordered, Early, Late, BarbersOk, Rooms, History, WakesOk, Content, Count;
    BarberMoves(s.barbers, b, Idle);
    QuietMove(s.barbers, b, Idle, s.order, s.front, s.shop.statuses, s.shop.occupancy);
  }

  /** Every other barber is outside the critical section. */
  ghost predicate OnlyOne(bs: seq<Barber>, b: nat) {
    b < |bs| && forall a :: 0 <= a < |bs| && a != b ==> !HoldsMutexB(bs[a])
  }

  lemma FrontMoves(bs: seq<Barber>, b: nat, order: seq<nat>, front: nat, served: int, chairs: seq<Option<nat>>,
                   st: seq<Status>, occupancy: seq<Option<nat>>)
    requires OnlyOne(bs, b) && bs[b].Fetching? && front < |order|
    requires Ring(order, front, chairs) && Late(order, front, served, st) && Rooms(bs, occupancy)
    ensures var t := bs[b := Preparing(order[front])];
            Ring(order, front + 1, chairs) && Late(order, front + 1, served, st) && Rooms(t, occupancy) && BarbersOk(t, order, front + 1, st)
  {
  }

  lemma FetchingKeeps(s: Sim, b: nat, fast: bool, slow: bool)
    requires Inv(s) && Enabled(s, Work(b, fast, slow)) && Readable(s) && s.barbers[b].Fetching?
    ensures Inv(WorkOf(s, b, fast, slow))
  {
    hide Readable, Born, Ring, Ordered, Early, Late, BarbersOk, Rooms, History, WakesOk, Content, Count;
    FetchReadsOldest(s, b);
    OnlyBarber(s, b);
    FrontMoves(s.barbers, b, s.order, s.front, Served(s), s.chairs, s.shop.statuses, s.shop.occupancy);
    BarberMoves(s.barbers, b, Preparing(s.order[s.front]));
  }

  /** What barber b, alone in the critical section, knows of the customer in its hands. */
  lemma Serving(s: Sim, b: nat)
    requires Accounts(s) && b < |s.barbers| && Unwoken(s.barbers[b])
    requires BarbersOk(s.barbers, s.order, s.front, s.shop.statuses) && Rooms(s.barbers, s.shop.occupancy)
    ensures OnlyOne(s.barbers, b) && b < |s.shop.occupancy|
    ensures Count(s.barbers, Unserved) == (if Unserved(s.barbers[b]) then 1 else 0)
    ensures Count(s.barbers, Unwoken) == 1
    ensures Count(s.barbers, AtPreparing) == (if AtPreparing(s.barbers[b]) then 1 else 0)
    ensures IsLatest(s.order, s.front, s.barbers[b].c)
    ensures s.barbers[b].Preparing? ==> Has(s.shop.statuses, s.barbers[b].c, Waiting)
    ensures s.barbers[b].Finishing? ==> Has(s.shop.statuses, s.barbers[b].c, Cutting)
    ensures s.shop.occupancy[b] == RoomOf(s.barbers[b])
  {
    OnlyBarber(s, b);
    OneServing(s, b);
    assert BarberOk(s.barbers[b], s.order, s.front, s.shop.statuses);
  }

  /** The monitor's record of the customer being served changes to x, which no rule about customers forbids. */
  lemma ServedStatus(cs: seq<Customer>, st: seq<Status>, order: seq<nat>, front: nat, x: Status)
    requires Born(cs, st) && Ordered(order, cs, st) && Early(cs, st) && 0 < front <= |order|
    ensures var c := order[front - 1]; c < |st| && Born(cs, st[c := x]) && Ordered(order, cs, st[c := x]) && Early(cs, st[c := x])
  {
    assert order[front - 1] in order;
  }

  lemma ServedLate(order: seq<nat>, front: nat, st: seq<Status>, x: Status)
    requires Distinct(order) && 0 < front <= |order| && Late(order, front, front - 1, st) && order[front - 1] < |st|
    ensures Late(order, front, if x.Done? then front else front - 1, st[order[front - 1] := x])
  {
  }

  lemma ServedRoom(bs: seq<Barber>, b: nat, pc: Barber, order: seq<nat>, front: nat, u: seq<Status>, occupancy: seq<Option<nat>>)
    requires OnlyOne(bs, b) && Rooms(bs, occupancy) && BarberOk(pc, order, front, u)
    ensures BarbersOk(bs[b := pc], order, front, u) && Rooms(bs[b := pc], occupancy[b := RoomOf(pc)])
  {
  }

  lemma OneMore(order: seq<nat>, front: nat)
    requires 0 < front <= |order|
    ensures order[..front - 1] + [order[front - 1]] == order[..front]
  {
  }

  /** prepare meets an empty room and a waiting customer, so it complains of nothing. */
  lemma PrepareIsQuiet(s: Shop, c: nat, b: nat)
    requires Has(s.statuses, c, Waiting) && b < |s.occupancy| && s.occupancy[b] == None
    ensures Prepared(s, c, b, false) ==
            s.(occupancy := s.occupancy[b := Some(c)], statuses := s.statuses[c := Cutting], cutting := s.cutting + 1, waiting := s.waiting - 1)
  {
  }

  lemma PreparedHistory(order: seq<nat>, prepared: seq<nat>, dismissed: seq<nat>, front: nat, served: int)
    requires 0 < front && History(order, prepared, dismissed, front - 1, served) && front <= |order|
    ensures History(order, prepared + [order[front - 1]], dismissed, front, served)
  {
  }

  lemma DismissedHistory(order: seq<nat>, prepared: seq<nat>, dismissed: seq<nat>, begun: int, front: nat)
    requires 0 < front && History(order, prepared, dismissed, begun, front - 1) && front <= |order|
    ensures History(order, prepared, dismissed + [order[front - 1]], begun, front)
  {
  }

  lemma PreparingKeeps(s: Sim, b: nat, fast: bool, slow: bool)
    requires Inv(s) && Enabled(s, Work(b, fast, slow)) && Readable(s) && s.barbers[b].Preparing?
    ensures Inv(WorkOf(s, b, fast, slow))
    ensures WorkOf(s, b, fast, slow).shop.complaints == s.shop.complaints
  {
    hide Readable, Born, Ring, Ordered, Early, Late, BarbersOk, Rooms, History, WakesOk, Content, Count, Prepared;
    var c := s.barbers[b].c;
    Serving(s, b);
    PrepareIsQuiet(s.shop, c, b);
    OrderIsDistinct(s.order, s.customers, s.shop.statuses);
    ServedStatus(s.customers, s.shop.statuses, s.order, s.front, Cutting);
    ServedLate(s.order, s.front, s.shop.statuses, Cutting);
    ServedRoom(s.barbers, b, Finishing(c), s.order, s.front, s.shop.statuses[c := Cutting], s.shop.occupancy);
    PreparedHistory(s.order, s.prepared, s.dismissed, s.front, Served(s));
    BarberMoves(s.barbers, b, Finishing(c));
  }

  lemma OrderIsDistinct(order: seq<nat>, cs: seq<Customer>, st: seq<Status>)
    requires Ordered(order, cs, st)
    ensures Distinct(order)
  {
  }

  /** dismiss meets the customer being cut in this room, so it can only complain about the time. */
  lemma DismissIsTimed(s: Shop, c: nat, b: nat, fast: bool, slow: bool)
    requires Has(s.statuses, c, Cutting) && b < |s.occupancy| && s.occupancy[b] == Some(c)
    ensures var t := Dismissed(s, c, b, false, fast, slow);
      t == s.(occupancy := s.occupancy[b := None], statuses := s.statuses[c := Done], cutting := s.cutting - 1, complaints := t.complaints)
      && (Content(s.complaints) ==> Content(t.complaints))
  {
  }

  lemma FinishingKeeps(s: Sim, b: nat, fast: bool, slow: bool)
    requires Inv(s) && Enabled(s, Work(b, fast, slow)) && Readable(s) && s.barbers[b].Finishing?
    ensures Inv(WorkOf(s, b, fast, slow))
  {
    hide Readable, Born, Ring, Ordered, Early, Late, BarbersOk, Rooms, History, WakesOk, Content, Count, Dismissed;
    var c := s.barbers[b].c;
    Serving(s, b);
    DismissIsTimed(s.shop, c, b, fast, slow);
    OrderIsDistinct(s.order, s.customers, s.shop.statuses);
    ServedStatus(s.customers, s.shop.statuses, s.order, s.front, Done);
    ServedLate(s.order, s.front, s.shop.statuses, Done);
    ServedRoom(s.barbers, b, Waking(c), s.order, s.front, s.shop.statuses[c := Done], s.shop.occupancy);
    DismissedHistory(s.order, s.prepared, s.dismissed, Begun(s), s.front);
    BarberMoves(s.barbers, b, Waking(c));
  }

  lemma WokenUp(order: seq<nat>, front: nat, wake: seq<nat>, cs: seq<Customer>)
    requires Distinct(order) && 0 < front <= |order| && WakesOk(order, front - 1, wake, cs)
    ensures var c := order[front - 1]; c < |wake| && WakesOk(order, front, wake[c := wake[c] + 1], cs)
  {
    var c := order[front - 1];
    assert WakeAt(order, front - 1, front - 1, wake, cs);
    var w := wake[c := wake[c] + 1];
    forall k | 0 <= k < |order| ensures WakeAt(order, k, front, w, cs) { assert WakeAt(order, k, front - 1, wake, cs); }
    forall x | 0 <= x < |w| && x !in order ensures w[x] == 0 { assert c in order; }
  }

  lemma WakingKeeps(s: Sim, b: nat, fast: bool, slow: bool)
    requires Inv(s) && Enabled(s, Work(b, fast, slow)) && Readable(s) && s.barbers[b].Waking?
    ensures Inv(WorkOf(s, b, fast, slow))
  {
    hide Readable, Born, Ring, Ordered, Early, Late, BarbersOk, Rooms, History, WakesOk, Content, Count;
    Serving(s, b);
    OrderIsDistinct(s.order, s.customers, s.shop.statuses);
    WokenUp(s.order, s.front, s.wake, s.customers);
    ServedRoom(s.barbers, b, Unlocking, s.order, s.front, s.shop.statuses, s.shop.occupancy);
    assert s.shop.occupancy[b := None] == s.shop.occupancy;
    BarberMoves(s.barbers, b, Unlocking);
  }

  lemma CustomerKeeps(s: Sim, c: nat, rejects: bool)
    requires Inv(s) && Enabled(s, Act(c)) && Readable(s)
    ensures Inv(ActOf(s, c, rejects))
  {
    hide Inv, Readable, ActOf;
    match s.customers[c]
    case AtDoor => DoorKeeps(s, c, rejects);
    case TurnAway => TurnAwayKeeps(s, c, rejects);
    case HasSlot => HasSlotKeeps(s, c, rejects);
    case Entering => EnteringKeeps(s, c, rejects);
    case Sitting => SittingKeeps(s, c, rejects);
    case Releasing => ReleasingKeeps(s, c, rejects);
    case Announcing => AnnouncingKeeps(s, c, rejects);
    case Seated => SeatedKeeps(s, c, rejects);
    case Leaving => LeavingKeeps(s, c, rejects);
  }

  lemma BarberKeeps(s: Sim, b: nat, fast: bool, slow: bool)
    requires Inv(s) && Enabled(s, Work(b, fast, slow)) && Readable(s)
    ensures Inv(WorkOf(s, b, fast, slow))
  {
    hide Inv, Readable, WorkOf;
    match s.barbers[b]
    case Idle => IdleKeeps(s, b, fast, slow);
    case Locking => LockingKeeps(s, b, fast, slow);
    case Fetching => FetchingKeeps(s, b, fast, slow);
    case Preparing(_) => PreparingKeeps(s, b, fast, slow);
    case Finishing(_) => FinishingKeeps(s, b, fast, slow);
    case Waking(_) => WakingKeeps(s, b, fast, slow);
    case Unlocking => UnlockingKeeps(s, b, fast, slow);
    case Freeing => FreeingKeeps(s, b, fast, slow);
  }

  /** Every action of every thread keeps the invariant, and reads only what is there to be read. */
  lemma StepKeeps(s: Sim, a: Step, rejects: bool)
    requires Inv(s) && Enabled(s, a)
    ensures Readable(s) && Inv(Next(s, a, rejects))
  {
    hide Inv, Readable, ActOf, WorkOf;
    InvReadable(s);
    match a
    case Arrival => ArrivalKeeps(s, rejects);
    case Act(c) => CustomerKeeps(s, c, rejects);
    case Work(b, fast, slow) => BarberKeeps(s, b, fast, slow);
  }
}
