/** main.c: barbers and customers as threads over a ring buffer and semaphores, one atomic action a step. */
module Barbershop {
  import opened Monitor
  import opened Sequences

  /** Where a customer's thread stands; the comment names its next action. */
  datatype Customer =
    | NotYet        // thrlab_wait_for_customers creates the thread
    | AtDoor        // Sem_trywait(slots)
    | TurnAway      // thrlab_reject_customer
    | HasSlot       // Sem_wait(mutex)
    | Entering      // thrlab_accept_customer
    | Sitting       // customer[(++rear) % max] = customer
    | Releasing     // Sem_post(mutex)
    | Announcing    // Sem_post(items)
    | Seated        // Sem_wait(customer->mutex)
    | Leaving       // the check of my_callback
    | Gone

  /** Where a barber's thread stands. */
  datatype Barber =
    | Idle                  // Sem_wait(items)
    | Locking               // Sem_wait(mutex)
    | Fetching              // customer[(++front) % max]
    | Preparing(c: nat)     // thrlab_prepare_customer
    | Finishing(c: nat)     // thrlab_dismiss_customer, after the haircut
    | Waking(c: nat)        // Sem_post(customer->mutex)
    | Unlocking             // Sem_post(mutex)
    | Freeing               // Sem_post(slots)

  /** order, prepared and dismissed record, in order, who sat down, was prepared, and was dismissed. */
  datatype Sim = Sim(shop: Shop, max: nat, front: nat, rear: nat, chairs: seq<Option<nat>>,
                     mutex: nat, slots: nat, items: nat, wake: seq<nat>,
                     customers: seq<Customer>, barbers: seq<Barber>, exited: bool,
                     order: seq<nat>, prepared: seq<nat>, dismissed: seq<nat>)

  /** setup, before any customer. */
  function Start(max: nat, barbers: nat, visitors: nat): Sim {
    Sim(Opened(max, barbers), max, 0, 0, seq(max, _ => None), 1, max, 0, seq(visitors, _ => 0),
        seq(visitors, _ => NotYet), seq(barbers, _ => Idle), false, [], [], [])
  }

  /** One action: of the arrival loop, of customer c, or of barber b (with what the clock says). */
  datatype Step = Arrival | Act(c: nat) | Work(b: nat, fast: bool, slow: bool)

  predicate Enabled(s: Sim, a: Step) {
    !s.exited && match a
      case Arrival => |s.shop.statuses| < |s.customers|
      case Act(c) =>
        c < |s.customers| && (match s.customers[c]
          case NotYet => false
          case HasSlot => s.mutex > 0
          case Seated => c < |s.wake| && s.wake[c] > 0
          case Gone => false
          case _ => true)
      case Work(b, _, _) =>
        b < |s.barbers| && (match s.barbers[b]
          case Idle => s.items > 0
          case Locking => s.mutex > 0
          case _ => true)
  }

  /** Every stored index is in range, and the slot a barber is about to read holds a customer. */
  ghost predicate Readable(s: Sim) {
    && |s.customers| == |s.wake| && |s.shop.statuses| <= |s.customers|
    && |s.barbers| == |s.shop.occupancy| && |s.chairs| == s.max
    && (forall c :: 0 <= c < |s.customers| && s.customers[c] != NotYet ==> c < |s.shop.statuses|)
    && (forall c :: 0 <= c < |s.customers| && s.customers[c] == Sitting ==> 0 < s.max)
    && (forall b :: 0 <= b < |s.barbers| && s.barbers[b].Preparing? ==> s.barbers[b].c < |s.shop.statuses|)
    && (forall b :: 0 <= b < |s.barbers| && s.barbers[b].Finishing? ==> s.barbers[b].c < |s.shop.statuses|)
    && (forall b :: 0 <= b < |s.barbers| && s.barbers[b].Waking? ==> s.barbers[b].c < |s.shop.statuses|)
    && (forall b :: 0 <= b < |s.barbers| && s.barbers[b].Fetching? ==> 0 < s.max && s.chairs[(s.front + 1) % s.max].Some?)
  }

  function SetC(s: Sim, c: nat, pc: Customer): Sim requires c < |s.customers| { s.(customers := s.customers[c := pc]) }
  function SetB(s: Sim, b: nat, pc: Barber): Sim requires b < |s.barbers| { s.(barbers := s.barbers[b := pc]) }

  /** customer_arrived and my_callback, one action at a time; rejects says whether a failed Sem_trywait
      returns (true) or exits the process, as its wrapper does (false). */
  function ActOf(s: Sim, c: nat, rejects: bool): Sim
    requires Readable(s) && Enabled(s, Act(c))
  {
    match s.customers[c]
    case AtDoor =>
      if s.slots > 0 then SetC(s, c, HasSlot).(slots := s.slots - 1)
      else if rejects then SetC(s, c, TurnAway)
      else s.(exited := true)
    case TurnAway => SetC(s, c, Leaving).(shop := TurnedAway(s.shop, c))
    case HasSlot => SetC(s, c, Entering).(mutex := s.mutex - 1)
    case Entering => SetC(s, c, Sitting).(shop := Accepted(s.shop, c))
    case Sitting =>
      SetC(s, c, Releasing).(rear := s.rear + 1, chairs := s.chairs[(s.rear + 1) % s.max := Some(c)], order := s.order + [c])
    case Releasing => SetC(s, c, Announcing).(mutex := s.mutex + 1)
    case Announcing => SetC(s, c, Seated).(items := s.items + 1)
    case Seated => SetC(s, c, Leaving).(wake := s.wake[c := s.wake[c] - 1])
    case Leaving => SetC(s, c, Gone).(shop := Departed(s.shop, c))
  }

  /** barber_work, one action at a time; a barber's thread is never a customer's. */
  function WorkOf(s: Sim, b: nat, fast: bool, slow: bool): Sim
    requires Readable(s) && Enabled(s, Work(b, fast, slow))
  {
    match s.barbers[b]
    case Idle => SetB(s, b, Locking).(items := s.items - 1)
    case Locking => SetB(s, b, Fetching).(mutex := s.mutex - 1)
    case Fetching => SetB(s, b, Preparing(s.chairs[(s.front + 1) % s.max].value)).(front := s.front + 1)
    case Preparing(c) => SetB(s, b, Finishing(c)).(shop := Prepared(s.shop, c, b, false), prepared := s.prepared + [c])
    case Finishing(c) =>
      SetB(s, b, Waking(c)).(shop := Dismissed(s.shop, c, b, false, fast, slow), dismissed := s.dismissed + [c])
    case Waking(c) => SetB(s, b, Unlocking).(wake := s.wake[c := s.wake[c] + 1])
    case Unlocking => SetB(s, b, Freeing).(mutex := s.mutex + 1)
    case Freeing => SetB(s, b, Idle).(slots := s.slots + 1)
  }

  function Next(s: Sim, a: Step, rejects: bool): Sim
    requires Readable(s) && Enabled(s, a)
  {
    match a
    case Arrival => SetC(s, |s.shop.statuses|, AtDoor).(shop := Arrived(s.shop))
    case Act(c) => ActOf(s, c, rejects)
    case Work(b, fast, slow) => WorkOf(s, b, fast, slow)
  }

  // customers by what they hold
  predicate HoldsMutexC(c: Customer) { c.Entering? || c.Sitting? || c.Releasing? }
  predicate HoldsSlot(c: Customer) { c.HasSlot? || c.Entering? || c.Sitting? || c.Releasing? || c.Announcing? }
  predicate Unposted(c: Customer) { c.Releasing? || c.Announcing? }
  predicate AtSitting(c: Customer) { c.Sitting? }
  predicate AtPending(c: Customer) { c.AtDoor? || c.TurnAway? || c.HasSlot? || c.Entering? }
  // barbers by what they hold
  predicate HoldsMutexB(b: Barber) { b.Fetching? || b.Preparing? || b.Finishing? || b.Waking? || b.Unlocking? }
  predicate HoldsTurn(b: Barber) { !b.Idle? }
  predicate Unfetched(b: Barber) { b.Locking? || b.Fetching? }
  predicate AtPreparing(b: Barber) { b.Preparing? }
  predicate AtFinishing(b: Barber) { b.Finishing? }
  predicate Unserved(b: Barber) { b.Preparing? || b.Finishing? }
  predicate Unwoken(b: Barber) { b.Preparing? || b.Finishing? || b.Waking? }

  predicate Left(c: Customer) { c.Leaving? || c.Gone? }
  predicate Inside(c: Customer) { c.Releasing? || c.Announcing? || c.Seated? }

  // ---- the invariant --------------------------------------------------------------------------

  ghost predicate Sizes(s: Sim) {
    && |s.customers| == |s.wake| && |s.shop.statuses| <= |s.customers|
    && |s.barbers| == |s.shop.occupancy| && |s.chairs| == s.max == s.shop.chairs
    && s.rear == |s.order| && s.front <= s.rear
  }

  /** Exactly the customers that have arrived have a status. */
  ghost predicate Born(cs: seq<Customer>, st: seq<Status>) {
    forall c :: 0 <= c < |cs| ==> (cs[c].NotYet? <==> |st| <= c)
  }

  /** Semaphore accounting: who holds the mutex, where the slots are, and how full the ring is. */
  ghost predicate Accounts(s: Sim) {
    && s.mutex + Count(s.customers, HoldsMutexC) + Count(s.barbers, HoldsMutexB) == 1
    && s.slots + Count(s.customers, HoldsSlot) + s.items + Count(s.barbers, HoldsTurn) == s.max
    && s.rear - s.front == s.items + Count(s.customers, Unposted) + Count(s.barbers, Unfetched)
  }

  /** The three gauges of the monitor. */
  ghost predicate Gauges(s: Sim) {
    && s.shop.pending == Count(s.customers, AtPending)
    && s.shop.waiting == Count(s.customers, AtSitting) + s.rear - s.front + Count(s.barbers, AtPreparing)
    && s.shop.cutting == Count(s.barbers, AtFinishing)
  }

  /** The ring holds the customers that sat down and were not fetched, oldest first. */
  ghost predicate Ring(order: seq<nat>, front: nat, chairs: seq<Option<nat>>) {
    && |order| - front <= |chairs|
    && (forall k {:trigger order[k]} :: front <= k < |order| ==> 0 < |chairs| && chairs[(k + 1) % |chairs|] == Some(order[k]))
  }

  /** Who is in the order: everyone who has sat down, once. */
  ghost predicate Ordered(order: seq<nat>, cs: seq<Customer>, st: seq<Status>) {
    && |st| <= |cs| && Distinct(order)
    && (forall c :: c in order ==> c < |st| && (Inside(cs[c]) || Left(cs[c])))
    && (forall c :: 0 <= c < |st| && Inside(cs[c]) ==> c in order)
    && (forall c :: 0 <= c < |st| && Left(cs[c]) ==> c in order || st[c] == Rejected)
  }

  /** The statuses before a customer sits down. */
  ghost predicate Early(cs: seq<Customer>, st: seq<Status>) {
    && |st| <= |cs|
    && (forall c :: 0 <= c < |st| && AtPending(cs[c]) ==> st[c] == Pending)
    && (forall c :: 0 <= c < |st| && AtSitting(cs[c]) ==> st[c] == Waiting)
  }

  predicate Has(st: seq<Status>, c: nat, t: Status) { c < |st| && st[c] == t }

  /** The statuses along the order: done up to served, waiting from front on. */
  ghost predicate Late(order: seq<nat>, front: nat, served: int, st: seq<Status>) {
    && 0 <= served <= front <= |order|
    && (forall k {:trigger order[k]} :: front <= k < |order| ==> Has(st, order[k], Waiting))
    && (forall k {:trigger order[k]} :: 0 <= k < served ==> Has(st, order[k], Done))
  }

  predicate IsLatest(order: seq<nat>, front: nat, c: nat) { 0 < front <= |order| && order[front - 1] == c }

  predicate BarberOk(b: Barber, order: seq<nat>, front: nat, st: seq<Status>) {
    match b
    case Preparing(c) => IsLatest(order, front, c) && Has(st, c, Waiting)
    case Finishing(c) => IsLatest(order, front, c) && Has(st, c, Cutting)
    case Waking(c) => IsLatest(order, front, c) && Has(st, c, Done)
    case _ => true
  }

  /** A barber serves the customer fetched last, whose status follows the haircut. */
  ghost predicate BarbersOk(bs: seq<Barber>, order: seq<nat>, front: nat, st: seq<Status>) {
    forall b :: 0 <= b < |bs| ==> BarberOk(bs[b], order, front, st)
  }

  function RoomOf(b: Barber): Option<nat> { if b.Finishing? then Some(b.c) else None }

  ghost predicate Rooms(bs: seq<Barber>, occupancy: seq<Option<nat>>) {
    |bs| == |occupancy| && forall b :: 0 <= b < |bs| ==> occupancy[b] == RoomOf(bs[b])
  }

  /** Prepared and dismissed are the order, up to the customer being served. */
  ghost predicate History(order: seq<nat>, prepared: seq<nat>, dismissed: seq<nat>, begun: int, served: int) {
    && 0 <= begun <= |order| && prepared == order[..begun]
    && 0 <= served <= |order| && dismissed == order[..served]
  }

  predicate WakeAt(order: seq<nat>, k: nat, woken: int, wake: seq<nat>, cs: seq<Customer>) requires k < |order| {
    && order[k] < |cs| == |wake|
    && (Left(cs[order[k]]) ==> k < woken)
    && wake[order[k]] == if k < woken && !Left(cs[order[k]]) then 1 else 0
  }

  /** A customer's own semaphore is up exactly between the end of its haircut and its waking. */
  ghost predicate WakesOk(order: seq<nat>, woken: int, wake: seq<nat>, cs: seq<Customer>) {
    && |wake| == |cs|
    && (forall k {:trigger order[k]} :: 0 <= k < |order| ==> WakeAt(order, k, woken, wake, cs))
    && (forall c :: 0 <= c < |wake| && c !in order ==> wake[c] == 0)
  }

  /** The complaints that the protocol cannot rule out. */
  predicate Excusable(x: Complaint) { x.RejectAvail? || x.CutFast? || x.CutSlow? }

  ghost predicate Content(complaints: multiset<Complaint>) { forall x :: x in complaints ==> Excusable(x) }

  /** How many of the customers fetched so far have been prepared, dismissed, and woken. */
  ghost function Begun(s: Sim): int { s.front - Count(s.barbers, AtPreparing) }
  ghost function Served(s: Sim): int { s.front - Count(s.barbers, Unserved) }
  ghost function Woken(s: Sim): int { s.front - Count(s.barbers, Unwoken) }

  ghost predicate Inv(s: Sim) {
    && Sizes(s) && Accounts(s) && Gauges(s)
    && Born(s.customers, s.shop.statuses)
    && Ring(s.order, s.front, s.chairs)
    && Ordered(s.order, s.customers, s.shop.statuses)
    && Early(s.customers, s.shop.statuses)
    && Late(s.order, s.front, Served(s), s.shop.statuses)
    && BarbersOk(s.barbers, s.order, s.front, s.shop.statuses)
    && Rooms(s.barbers, s.shop.occupancy)
    && History(s.order, s.prepared, s.dismissed, Begun(s), Served(s))
    && WakesOk(s.order, Woken(s), s.wake, s.customers)
    && Content(s.shop.complaints)
  }

  lemma NobodyYet(n: nat)
    ensures var cs := seq(n, _ => NotYet);
      Count(cs, HoldsMutexC) == Count(cs, HoldsSlot) == Count(cs, Unposted) == Count(cs, AtSitting) == Count(cs, AtPending) == 0
  {
    CountConst(n, NotYet, HoldsMutexC);
    CountConst(n, NotYet, HoldsSlot);
    CountConst(n, NotYet, Unposted);
    CountConst(n, NotYet, AtSitting);
    CountConst(n, NotYet, AtPending);
  }

  lemma AllIdle(n: nat)
    ensures var bs := seq(n, _ => Idle);
      Count(bs, HoldsMutexB) == Count(bs, HoldsTurn) == Count(bs, Unfetched) == Count(bs, AtPreparing) == Count(bs, AtFinishing)
      == Count(bs, Unserved) == Count(bs, Unwoken) == 0
  {
    CountConst(n, Idle, HoldsMutexB);
    CountConst(n, Idle, HoldsTurn);
    CountConst(n, Idle, Unfetched);
    CountConst(n, Idle, AtPreparing);
    CountConst(n, Idle, AtFinishing);
    CountConst(n, Idle, Unserved);
    CountConst(n, Idle, Unwoken);
  }

  lemma StartOk(max: nat, barbers: nat, visitors: nat)
    ensures Inv(Start(max, barbers, visitors))
  {
    NobodyYet(visitors);
    AllIdle(barbers);
    hide Count;
    assert Start(max, barbers, visitors).customers == seq(visitors, _ => NotYet);
    assert Start(max, barbers, visitors).barbers == seq(barbers, _ => Idle);
  }

  // ---- consequences of the accounts -----------------------------------------------------------

  /** Whoever holds the mutex is alone: a barber. */
  lemma OnlyBarber(s: Sim, b: nat)
    requires Accounts(s) && b < |s.barbers| && HoldsMutexB(s.barbers[b])
    ensures s.mutex == 0 && Count(s.barbers, HoldsMutexB) == 1 && Count(s.customers, HoldsMutexC) == 0
    ensures forall a :: 0 <= a < |s.barbers| && a != b ==> !HoldsMutexB(s.barbers[a])
    ensures forall c :: 0 <= c < |s.customers| ==> !HoldsMutexC(s.customers[c])
  {
    CountOne(s.barbers, b, HoldsMutexB);
    forall a | 0 <= a < |s.barbers| && a != b ensures !HoldsMutexB(s.barbers[a]) {
      if HoldsMutexB(s.barbers[a]) {
        if a < b { CountTwo(s.barbers, a, b, HoldsMutexB); } else { CountTwo(s.barbers, b, a, HoldsMutexB); }
      }
    }
    forall c | 0 <= c < |s.customers| ensures !HoldsMutexC(s.customers[c]) {
      if HoldsMutexC(s.customers[c]) { CountOne(s.customers, c, HoldsMutexC); }
    }
  }

  /** Or a customer. */
  lemma OnlyCustomer(s: Sim, c: nat)
    requires Accounts(s) && c < |s.customers| && HoldsMutexC(s.customers[c])
    ensures s.mutex == 0 && forall b :: 0 <= b < |s.barbers| ==> !HoldsMutexB(s.barbers[b])
  {
    CountOne(s.customers, c, HoldsMutexC);
    forall b | 0 <= b < |s.barbers| ensures !HoldsMutexB(s.barbers[b]) {
      if HoldsMutexB(s.barbers[b]) { CountOne(s.barbers, b, HoldsMutexB); }
    }
  }

  /** With no barber in the critical section, everyone fetched has been served and woken. */
  lemma NobodyServing(s: Sim)
    requires forall b :: 0 <= b < |s.barbers| ==> !HoldsMutexB(s.barbers[b])
    ensures Count(s.barbers, Unserved) == Count(s.barbers, Unwoken) == Count(s.barbers, AtPreparing) == Count(s.barbers, AtFinishing) == 0
  {
    CountNone(s.barbers, Unserved);
    CountNone(s.barbers, Unwoken);
    CountNone(s.barbers, AtPreparing);
    CountNone(s.barbers, AtFinishing);
  }

  /** With barber b there, the counts speak of b alone. */
  lemma OneServing(s: Sim, b: nat)
    requires b < |s.barbers| && forall a :: 0 <= a < |s.barbers| && a != b ==> !HoldsMutexB(s.barbers[a])
    ensures Count(s.barbers, Unserved) == if Unserved(s.barbers[b]) then 1 else 0
    ensures Count(s.barbers, Unwoken) == if Unwoken(s.barbers[b]) then 1 else 0
    ensures Count(s.barbers, AtPreparing) == if AtPreparing(s.barbers[b]) then 1 else 0
    ensures Count(s.barbers, AtFinishing) == if AtFinishing(s.barbers[b]) then 1 else 0
  {
    CountAlone(s.barbers, b, Unserved);
    CountAlone(s.barbers, b, Unwoken);
    CountAlone(s.barbers, b, AtPreparing);
    CountAlone(s.barbers, b, AtFinishing);
  }

  lemma Multiples(m: int, q: int)
    requires 0 < m
    ensures (q >= 1 ==> m * q >= m) && (q <= 0 ==> m * q <= 0)
  {
  }

  /** Fewer than m places apart, two positions of the ring never coincide. */
  lemma ModApart(a: int, b: int, m: int)
    requires 0 < m && a < b < a + m
    ensures a % m != b % m
  {
    Multiples(m, b / m - a / m);
    assert b - a == m * (b / m - a / m) + (b % m - a % m);
  }

  /** A barber about to read the ring finds the oldest customer there. */
  lemma FetchReadsOldest(s: Sim, b: nat)
    requires Sizes(s) && Accounts(s) && Ring(s.order, s.front, s.chairs) && b < |s.barbers| && Unfetched(s.barbers[b])
    ensures 0 < s.max && s.front < s.rear && s.chairs[(s.front + 1) % s.max] == Some(s.order[s.front])
  {
    CountOne(s.barbers, b, Unfetched);
    assert s.order[s.front] == s.order[s.front];
  }

  lemma InvReadable(s: Sim)
    requires Inv(s)
    ensures Readable(s)
  {
    hide Count, Early, Late, Rooms, History, WakesOk, Content, Ordered;
    forall b | 0 <= b < |s.barbers| && s.barbers[b].Fetching? ensures 0 < s.max && s.chairs[(s.front + 1) % s.max].Some? {
      FetchReadsOldest(s, b);
    }
    forall c | 0 <= c < |s.customers| && s.customers[c] == Sitting ensures 0 < s.max { CountOne(s.customers, c, HoldsSlot); }
  }

  // ---- customers' actions keep the invariant --------------------------------------------------

  /** How the counts move when customer c goes on to pc. */
  lemma CustomerMoves(s: seq<Customer>, c: nat, pc: Customer)
    requires c < |s|
    ensures var t := s[c := pc];
      && Count(t, HoldsMutexC) == Count(s, HoldsMutexC) - (if HoldsMutexC(s[c]) then 1 else 0) + (if HoldsMutexC(pc) then 1 else 0)
      && Count(t, HoldsSlot) == Count(s, HoldsSlot) - (if HoldsSlot(s[c]) then 1 else 0) + (if HoldsSlot(pc) then 1 else 0)
      && Count(t, Unposted) == Count(s, Unposted) - (if Unposted(s[c]) then 1 else 0) + (if Unposted(pc) then 1 else 0)
      && Count(t, AtSitting) == Count(s, AtSitting) - (if AtSitting(s[c]) then 1 else 0) + (if AtSitting(pc) then 1 else 0)
      && Count(t, AtPending) == Count(s, AtPending) - (if AtPending(s[c]) then 1 else 0) + (if AtPending(pc) then 1 else 0)
  {
    CountUpdate(s, c, pc, HoldsMutexC);
    CountUpdate(s, c, pc, HoldsSlot);
    CountUpdate(s, c, pc, Unposted);
    CountUpdate(s, c, pc, AtSitting);
    CountUpdate(s, c, pc, AtPending);
  }

  /** Nothing but counts depends on a move within the same stage. */
  predicate SameStage(a: Customer, b: Customer) {
    && (a.NotYet? <==> b.NotYet?) && (AtPending(a) <==> AtPending(b)) && (AtSitting(a) <==> AtSitting(b))
    && (Inside(a) <==> Inside(b)) && (Left(a) <==> Left(b))
  }

  lemma StageKeeps(cs: seq<Customer>, c: nat, pc: Customer, st: seq<Status>, order: seq<nat>, wake: seq<nat>, woken: int)
    requires c < |cs| && SameStage(cs[c], pc)
    requires Born(cs, st) && Ordered(order, cs, st) && Early(cs, st) && WakesOk(order, woken, wake, cs)
    ensures var t := cs[c := pc]; Born(t, st) && Ordered(order, t, st) && Early(t, st) && WakesOk(order, woken, wake, t)
  {
    var t := cs[c := pc];
    forall k | 0 <= k < |order| ensures WakeAt(order, k, woken, wake, t) { assert WakeAt(order, k, woken, wake, cs); }
    forall x | x in order ensures x < |st| && (Inside(t[x]) || Left(t[x])) { assert Inside(cs[x]) || Left(cs[x]); }
  }

  lemma DoorKeeps(s: Sim, c: nat, rejects: bool)
    requires Inv(s) && Enabled(s, Act(c)) && Readable(s)
    requires s.customers[c].AtDoor?
    ensures Inv(ActOf(s, c, rejects))
  {
    hide Readable, Born, Ring, Ordered, Early, Late, BarbersOk, Rooms, History, WakesOk, Content, Count;
    CustomerMoves(s.customers, c, HasSlot);
    CustomerMoves(s.customers, c, TurnAway);
    StageKeeps(s.customers, c, HasSlot, s.shop.statuses, s.order, s.wake, Woken(s));
    StageKeeps(s.customers, c, TurnAway, s.shop.statuses, s.order, s.wake, Woken(s));
  }

  /** The stage of c does not matter to the order; nor does its status, as long as c is not in it. */
  lemma OutsideOrder(cs: seq<Customer>, c: nat, pc: Customer, st: seq<Status>, x: Status, order: seq<nat>, front: nat, served: int,
                     bs: seq<Barber>, wake: seq<nat>, woken: int)
    requires c < |st| <= |cs| && c !in order
    requires Late(order, front, served, st) && BarbersOk(bs, order, front, st) && WakesOk(order, woken, wake, cs)
    ensures Late(order, front, served, st[c := x]) && BarbersOk(bs, order, front, st[c := x])
    ensures WakesOk(order, woken, wake, cs[c := pc])
  {
    var t, u := cs[c := pc], st[c := x];
    forall k | 0 <= k < |order| ensures order[k] != c && WakeAt(order, k, woken, wake, t) {
      assert order[k] in order && WakeAt(order, k, woken, wake, cs);
    }
    forall k | front <= k < |order| ensures Has(u, order[k], Waiting) { assert order[k] in order && Has(st, order[k], Waiting); }
    forall k | 0 <= k < served ensures Has(u, order[k], Done) { assert order[k] in order && Has(st, order[k], Done); }
    forall b | 0 <= b < |bs| ensures BarberOk(bs[b], order, front, u) { assert BarberOk(bs[b], order, front, st); }
  }

  /** What the monitor says of a customer who has not sat down. */
  lemma EarlyStatus(cs: seq<Customer>, st: seq<Status>, c: nat)
    requires Born(cs, st) && Early(cs, st) && c < |cs| && !cs[c].NotYet?
    ensures c < |st| && (AtPending(cs[c]) ==> st[c] == Pending) && (AtSitting(cs[c]) ==> st[c] == Waiting)
  {
  }

  lemma NotInOrder(order: seq<nat>, cs: seq<Customer>, st: seq<Status>, c: nat)
    requires Ordered(order, cs, st) && c < |cs| && !Inside(cs[c]) && !Left(cs[c])
    ensures c !in order
  {
  }

  lemma RejectedLeaves(cs: seq<Customer>, c: nat, st: seq<Status>, order: seq<nat>)
    requires c < |st| && Born(cs, st) && Ordered(order, cs, st) && Early(cs, st) && cs[c].TurnAway?
    ensures var t := cs[c := Leaving]; var u := st[c := Rejected]; Born(t, u) && Ordered(order, t, u) && Early(t, u)
  {
  }

  lemma TurnAwayKeeps(s: Sim, c: nat, rejects: bool)
    requires Inv(s) && Enabled(s, Act(c)) && Readable(s)
    requires s.customers[c].TurnAway?
    ensures Inv(ActOf(s, c, rejects))
  {
    hide Readable, Born, Ring, Ordered, Early, Late, BarbersOk, Rooms, History, WakesOk, Count;
    EarlyStatus(s.customers, s.shop.statuses, c);
    CustomerMoves(s.customers, c, Leaving);
    NotInOrder(s.order, s.customers, s.shop.statuses, c);
    RejectedLeaves(s.customers, c, s.shop.statuses, s.order);
    OutsideOrder(s.customers, c, Leaving, s.shop.statuses, Rejected, s.order, s.front, Served(s), s.barbers, s.wake, Woken(s));
  }

  lemma HasSlotKeeps(s: Sim, c: nat, rejects: bool)
    requires Inv(s) && Enabled(s, Act(c)) && Readable(s)
    requires s.customers[c].HasSlot?
    ensures Inv(ActOf(s, c, rejects))
  {
    hide Readable, Born, Ring, Ordered, Early, Late, BarbersOk, Rooms, History, WakesOk, Content, Count;
    CustomerMoves(s.customers, c, Entering);
    StageKeeps(s.customers, c, Entering, s.shop.statuses, s.order, s.wake, Woken(s));
  }

  lemma ReleasingKeeps(s: Sim, c: nat, rejects: bool)
    requires Inv(s) && Enabled(s, Act(c)) && Readable(s)
    requires s.customers[c].Releasing?
    ensures Inv(ActOf(s, c, rejects))
  {
    hide Readable, Born, Ring, Ordered, Early, Late, BarbersOk, Rooms, History, WakesOk, Content, Count;
    CustomerMoves(s.customers, c, Announcing);
    StageKeeps(s.customers, c, Announcing, s.shop.statuses, s.order, s.wake, Woken(s));
  }

  lemma AnnouncingKeeps(s: Sim, c: nat, rejects: bool)
    requires Inv(s) && Enabled(s, Act(c)) && Readable(s)
    requires s.customers[c].Announcing?
    ensures Inv(ActOf(s, c, rejects))
  {
    hide Readable, Born, Ring, Ordered, Early, Late, BarbersOk, Rooms, History, WakesOk, Content, Count;
    CustomerMoves(s.customers, c, Seated);
    StageKeeps(s.customers, c, Seated, s.shop.statuses, s.order, s.wake, Woken(s));
  }

  /** A customer in the critical section who has not sat down yet still has room in the ring. */
  lemma RoomLeft(s: Sim, c: nat)
    requires Accounts(s) && Sizes(s) && c < |s.customers| && (s.customers[c].Entering? || s.customers[c].Sitting?)
    ensures s.rear - s.front < s.max
  {
    CountMore(s.customers, c, HoldsSlot, Unposted);
    CountSubset(s.barbers, HoldsTurn, Unfetched);
  }

  lemma SitsDown(cs: seq<Customer>, c: nat, st: seq<Status>, order: seq<nat>)
    requires c < |st| && Born(cs, st) && Ordered(order, cs, st) && Early(cs, st) && cs[c].Entering?
    ensures var t := cs[c := Sitting]; var u := st[c := Waiting]; Born(t, u) && Ordered(order, t, u) && Early(t, u)
  {
  }

  /** Nobody else is between accept and insert, and no barber is serving. */
  lemma AloneInside(s: Sim, c: nat)
    requires Accounts(s) && c < |s.customers| && HoldsMutexC(s.customers[c])
    ensures s.mutex == 0 && Count(s.customers, AtSitting) == (if AtSitting(s.customers[c]) then 1 else 0)
    ensures Count(s.barbers, Unserved) == Count(s.barbers, Unwoken) == Count(s.barbers, AtPreparing) == Count(s.barbers, AtFinishing) == 0
  {
    OnlyCustomer(s, c);
    NobodyServing(s);
    forall a | 0 <= a < |s.customers| && a != c ensures !AtSitting(s.customers[a]) {
      if HoldsMutexC(s.customers[a]) {
        if a < c { CountTwo(s.customers, a, c, HoldsMutexC); } else { CountTwo(s.customers, c, a, HoldsMutexC); }
      }
    }
    CountAlone(s.customers, c, AtSitting);
  }

  lemma EnteringKeeps(s: Sim, c: nat, rejects: bool)
    requires Inv(s) && Enabled(s, Act(c)) && Readable(s)
    requires s.customers[c].Entering?
    ensures Inv(ActOf(s, c, rejects))
    ensures ActOf(s, c, rejects).shop.complaints == s.shop.complaints
  {
    hide Readable, Born, Ring, Ordered, Early, Late, BarbersOk, Rooms, History, WakesOk, Content, Count;
    EarlyStatus(s.customers, s.shop.statuses, c);
    CustomerMoves(s.customers, c, Sitting);
    AloneInside(s, c);
    RoomLeft(s, c);
    NotInOrder(s.order, s.customers, s.shop.statuses, c);
    SitsDown(s.customers, c, s.shop.statuses, s.order);
    OutsideOrder(s.customers, c, Sitting, s.shop.statuses, Waiting, s.order, s.front, Served(s), s.barbers, s.wake, Woken(s));
  }

  // ---- sitting down ---------------------------------------------------------------------------

  lemma RingGrows(order: seq<nat>, front: nat, chairs: seq<Option<nat>>, c: nat)
    requires Ring(order, front, chairs) && front <= |order| && |order| - front < |chairs|
    ensures Ring(order + [c], front, chairs[(|order| + 1) % |chairs| := Some(c)])
  {
    var o, m := order + [c], |chairs|;
    var ch := chairs[(|order| + 1) % m := Some(c)];
    forall k | front <= k < |o| ensures ch[(k + 1) % m] == Some(o[k]) {
      if k < |order| {
        assert order[k] == o[k];
        ModApart(k + 1, |order| + 1, m);
      }
    }
  }

  lemma OrderGrows(cs: seq<Customer>, c: nat, st: seq<Status>, order: seq<nat>)
    requires c < |st| && Born(cs, st) && Ordered(order, cs, st) && Early(cs, st) && cs[c].Sitting?
    ensures var t := cs[c := Releasing]; Born(t, st) && Ordered(order + [c], t, st) && Early(t, st)
  {
  }

  lemma LateGrows(cs: seq<Customer>, c: nat, st: seq<Status>, order: seq<nat>, front: nat, bs: seq<Barber>, wake: seq<nat>)
    requires c < |st| <= |cs| && c !in order && cs[c].Sitting? && st[c] == Waiting
    requires Late(order, front, front, st) && BarbersOk(bs, order, front, st) && WakesOk(order, front, wake, cs)
    ensures Late(order + [c], front, front, st) && BarbersOk(bs, order + [c], front, st)
    ensures WakesOk(order + [c], front, wake, cs[c := Releasing])
  {
    var o, t := order + [c], cs[c := Releasing];
    forall k | 0 <= k < |o| ensures WakeAt(o, k, front, wake, t) {
      if k < |order| { assert o[k] == order[k] && order[k] in order && WakeAt(order, k, front, wake, cs); }
    }
    forall k | front <= k < |o| ensures Has(st, o[k], Waiting) { if k < |order| { assert o[k] == order[k]; } }
    forall k | 0 <= k < front ensures Has(st, o[k], Done) { assert o[k] == order[k]; }
    forall b | 0 <= b < |bs| ensures BarberOk(bs[b], o, front, st) { assert BarberOk(bs[b], order, front, st); }
    forall x | 0 <= x < |wake| && x !in o ensures wake[x] == 0 { assert x !in order; }
  }

  lemma HistoryGrows(order: seq<nat>, prepared: seq<nat>, dismissed: seq<nat>, begun: int, served: int, c: nat)
    requires History(order, prepared, dismissed, begun, served)
    ensures History(order + [c], prepared, dismissed, begun, served)
  {
  }

  lemma SittingKeeps(s: Sim, c: nat, rejects: bool)
    requires Inv(s) && Enabled(s, Act(c)) && Readable(s)
    requires s.customers[c].Sitting?
    ensures Inv(ActOf(s, c, rejects))
  {
    hide Readable, Born, Ring, Ordered, Early, Late, BarbersOk, Rooms, History, WakesOk, Content, Count;
    EarlyStatus(s.customers, s.shop.statuses, c);
    CustomerMoves(s.customers, c, Releasing);
    AloneInside(s, c);
    RoomLeft(s, c);
    NotInOrder(s.order, s.customers, s.shop.statuses, c);
    RingGrows(s.order, s.front, s.chairs, c);
    OrderGrows(s.customers, c, s.shop.statuses, s.order);
    LateGrows(s.customers, c, s.shop.statuses, s.order, s.front, s.barbers, s.wake);
    HistoryGrows(s.order, s.prepared, s.dismissed, Begun(s), Served(s), c);
  }

  // ---- leaving --------------------------------------------------------------------------------

  lemma SeatedWakes(cs: seq<Customer>, c: nat, st: seq<Status>, order: seq<nat>, wake: seq<nat>, woken: int)
    requires c < |st| <= |cs| == |wake| && cs[c].Seated? && wake[c] > 0
    requires Born(cs, st) && Ordered(order, cs, st) && Early(cs, st) && WakesOk(order, woken, wake, cs)
    ensures Born(cs[c := Leaving], st) && Ordered(order, cs[c := Leaving], st) && Early(cs[c := Leaving], st)
    ensures WakesOk(order, woken, wake[c := wake[c] - 1], cs[c := Leaving])
  {
    var t, w := cs[c := Leaving], wake[c := wake[c] - 1];
    assert c in order;
    forall k | 0 <= k < |order| ensures WakeAt(order, k, woken, w, t) { assert WakeAt(order, k, woken, wake, cs); }
    forall x | x in order ensures x < |st| && (Inside(t[x]) || Left(t[x])) { assert Inside(cs[x]) || Left(cs[x]); }
  }

  lemma SeatedKeeps(s: Sim, c: nat, rejects: bool)
    requires Inv(s) && Enabled(s, Act(c)) && Readable(s)
    requires s.customers[c].Seated?
    ensures Inv(ActOf(s, c, rejects))
  {
    hide Readable, Born, Ring, Ordered, Early, Late, BarbersOk, Rooms, History, WakesOk, Content, Count;
    EarlyStatus(s.customers, s.shop.statuses, c);
    CustomerMoves(s.customers, c, Leaving);
    SeatedWakes(s.customers, c, s.shop.statuses, s.order, s.wake, Woken(s));
  }

  /** A customer whose thread is about to end has had its haircut finished, or was turned away. */
  lemma LeaversAreDone(s: Sim, c: nat)
    requires Inv(s) && c < |s.shop.statuses| && Left(s.customers[c])
    ensures s.shop.statuses[c] == Done || s.shop.statuses[c] == Rejected
  {
    hide Born, Ring, Early, BarbersOk, Rooms, History, Content, Accounts, Gauges, Count;
    UnservedAreUnwoken(s.barbers);
    if c in s.order {
      var k :| 0 <= k < |s.order| && s.order[k] == c;
      assert WakeAt(s.order, k, Woken(s), s.wake, s.customers);
      assert Has(s.shop.statuses, s.order[k], Done);
    }
  }

  lemma UnservedAreUnwoken(bs: seq<Barber>)
    ensures Count(bs, Unserved) <= Count(bs, Unwoken)
  {
  }

  lemma LeavingKeeps(s: Sim, c: nat, rejects: bool)
    requires Inv(s) && Enabled(s, Act(c)) && Readable(s)
    requires s.customers[c].Leaving?
    ensures Inv(ActOf(s, c, rejects))
    ensures ActOf(s, c, rejects).shop == s.shop
  {
    hide Readable, Born, Ring, Ordered, Early, Late, BarbersOk, Rooms, History, WakesOk, Content, Count;
    EarlyStatus(s.customers, s.shop.statuses, c);
    LeaversAreDone(s, c);
    CustomerMoves(s.customers, c, Gone);
    StageKeeps(s.customers, c, Gone, s.shop.statuses, s.order, s.wake, Woken(s));
  }

  // ---- arriving -------------------------------------------------------------------------------

  lemma ArrivalViews(cs: seq<Customer>, st: seq<Status>, order: seq<nat>, front: nat, served: int, bs: seq<Barber>, wake: seq<nat>, woken: int)
    requires |st| < |cs| && Born(cs, st) && Ordered(order, cs, st) && Early(cs, st)
    requires Late(order, front, served, st) && BarbersOk(bs, order, front, st) && WakesOk(order, woken, wake, cs)
    ensures var t := cs[|st| := AtDoor]; var u := st + [Pending];
            Born(t, u) && Ordered(order, t, u) && Early(t, u)
            && Late(order, front, served, u) && BarbersOk(bs, order, front, u) && WakesOk(order, woken, wake, t)
  {
    var t, u := cs[|st| := AtDoor], st + [Pending];
    assert |st| !in order;
    forall k | 0 <= k < |order| ensures WakeAt(order, k, woken, wake, t) && order[k] < |st| {
      assert order[k] in order && WakeAt(order, k, woken, wake, cs);
    }
    forall b | 0 <= b < |bs| ensures BarberOk(bs[b], order, front, u) { assert BarberOk(bs[b], order, front, st); }
  }

  lemma FirstNotYet(cs: seq<Customer>, st: seq<Status>)
    requires Born(cs, st) && |st| < |cs|
    ensures cs[|st|].NotYet?
  {
  }

  lemma ArrivalKeeps(s: Sim, rejects: bool)
    requires Inv(s) && Enabled(s, Arrival) && Readable(s)
    ensures Inv(Next(s, Arrival, rejects))
  {
    hide Readable, Born, Ring, Ordered, Early, Late, BarbersOk, Rooms, History, WakesOk, Content, Count;
    FirstNotYet(s.customers, s.shop.statuses);
    CustomerMoves(s.customers, |s.shop.statuses|, AtDoor);
    ArrivalViews(s.customers, s.shop.statuses, s.order, s.front, Served(s), s.barbers, s.wake, Woken(s));
  }
}
