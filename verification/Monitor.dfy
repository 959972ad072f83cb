/** help.c: the monitor that follows every customer of the barbershop and counts complaints. */
module Monitor {
  import opened Sequences

  datatype Option<+T> = None | Some(value: T)

  datatype Status = Pending | Waiting | Cutting | Done | Rejected

  datatype Complaint =
    | RejectAvail | RejectWait | RejectCut | RejectDone | RejectAgain
    | AcceptFull | AcceptWait | AcceptCut | AcceptDone | AcceptReject
    | PreparePending | PrepareBusy | PrepareAgain | PrepareDone | PrepareReject | PrepareSelf
    | DismissPending | DismissWait | DismissDone | DismissReject | DismissRoom | DismissSelf | DismissEarly
    | CutFast | CutSlow

  /** What the monitor knows: a customer is its id, a room the number of its barber. */
  datatype Shop = Shop(chairs: nat, statuses: seq<Status>, occupancy: seq<Option<nat>>,
                       pending: int, waiting: int, cutting: int, complaints: multiset<Complaint>)

  /** thrlab_setup. */
  function Opened(chairs: nat, barbers: nat): Shop {
    Shop(chairs, [], seq(barbers, _ => None), 0, 0, 0, multiset{})
  }

  function Complain(s: Shop, c: Complaint): Shop { s.(complaints := s.complaints + multiset{c}) }

  /** add_customer with status Pending, and the pending count that follows it. */
  function Arrived(s: Shop): Shop {
    s.(statuses := s.statuses + [Pending], pending := s.pending + 1)
  }

  function Accepted(s: Shop, id: nat): Shop requires id < |s.statuses| {
    match s.statuses[id]
    case Pending =>
      var t := if s.chairs <= s.waiting then Complain(s, AcceptFull) else s;
      t.(statuses := s.statuses[id := Waiting], waiting := s.waiting + 1, pending := s.pending - 1)
    case Waiting => Complain(s, AcceptWait)
    case Cutting => Complain(s, AcceptCut)
    case Done => Complain(s, AcceptDone)
    case Rejected => Complain(s, AcceptReject)
  }

  function TurnedAway(s: Shop, id: nat): Shop requires id < |s.statuses| {
    match s.statuses[id]
    case Pending =>
      var t := if s.chairs > s.waiting then Complain(s, RejectAvail) else s;
      t.(statuses := s.statuses[id := Rejected], pending := s.pending - 1)
    case Waiting => Complain(s, RejectWait)
    case Cutting => Complain(s, RejectCut)
    case Done => Complain(s, RejectDone)
    case Rejected => Complain(s, RejectAgain)
  }

  /** self: the call comes from the customer's own thread. */
  function Prepared(s: Shop, id: nat, room: nat, self: bool): Shop
    requires id < |s.statuses| && room < |s.occupancy|
  {
    if s.occupancy[room].Some? && s.occupancy[room] != Some(id) then Complain(s, PrepareBusy)
    else match s.statuses[id]
      case Pending => Complain(s, PreparePending)
      case Waiting =>
        var t := if self then Complain(s, PrepareSelf) else s;
        if s.occupancy[room].Some? then Complain(t, PrepareBusy)
        else t.(occupancy := s.occupancy[room := Some(id)], statuses := s.statuses[id := Cutting],
                cutting := s.cutting + 1, waiting := s.waiting - 1)
      case Cutting => Complain(s, PrepareAgain)
      case Done => Complain(s, PrepareDone)
      case Rejected => Complain(s, PrepareReject)
  }

  function Timed(s: Shop, fast: bool, slow: bool): Shop {
    var t := if fast then Complain(s, CutFast) else s;
    if slow then Complain(t, CutSlow) else t
  }

  /** fast and slow: what the clock says about the haircut. */
  function Dismissed(s: Shop, id: nat, room: nat, self: bool, fast: bool, slow: bool): Shop
    requires id < |s.statuses| && room < |s.occupancy|
  {
    if s.occupancy[room] != Some(id) then Complain(s, DismissRoom)
    else match s.statuses[id]
      case Pending => Complain(s, DismissPending)
      case Waiting => Complain(s, DismissWait)
      case Cutting =>
        var t := if self then Complain(s, DismissSelf) else s;
        Timed(t, fast, slow).(occupancy := s.occupancy[room := None], statuses := s.statuses[id := Done], cutting := s.cutting - 1)
      case Done => Complain(s, DismissDone)
      case Rejected => Complain(s, DismissReject)
  }

  /** my_callback, after the customer's own code has returned. */
  function Departed(s: Shop, id: nat): Shop requires id < |s.statuses| {
    if s.statuses[id] == Cutting then Complain(s, DismissEarly) else s
  }

  // ---- what the monitor keeps, whoever calls it -----------------------------------------------

  predicate IsPending(t: Status) { t == Pending }
  predicate IsWaiting(t: Status) { t == Waiting }
  predicate IsCutting(t: Status) { t == Cutting }

  /** The three gauges count the customers in the three statuses. */
  ghost predicate Gauged(h: Shop) {
    && h.pending == Count(h.statuses, IsPending)
    && h.waiting == Count(h.statuses, IsWaiting)
    && h.cutting == Count(h.statuses, IsCutting)
  }

  /** The customers being cut and the occupied rooms correspond, one to one. */
  ghost predicate Housed(rooms: seq<Option<nat>>, st: seq<Status>) {
    && (forall b :: 0 <= b < |rooms| && rooms[b].Some? ==> rooms[b].value < |st| && st[rooms[b].value] == Cutting)
    && (forall a, b :: 0 <= a < b < |rooms| && rooms[a].Some? ==> rooms[a] != rooms[b])
    && (forall c {:trigger st[c]} :: 0 <= c < |st| && st[c] == Cutting ==> Some(c) in rooms)
  }

  /** A dismissed customer was being cut, and more customers than chairs never wait unnoticed. */
  ghost predicate Honest(h: Shop) {
    && DismissPending !in h.complaints && DismissWait !in h.complaints
    && DismissDone !in h.complaints && DismissReject !in h.complaints
    && (h.waiting > h.chairs ==> AcceptFull in h.complaints)
  }

  ghost predicate Sound(h: Shop) { Gauged(h) && Housed(h.occupancy, h.statuses) && Honest(h) }

  /** How the gauges move when customer id changes from one status to another. */
  lemma StatusMoves(st: seq<Status>, id: nat, x: Status)
    requires id < |st|
    ensures Count(st[id := x], IsPending) == Count(st, IsPending) - (if IsPending(st[id]) then 1 else 0) + (if IsPending(x) then 1 else 0)
    ensures Count(st[id := x], IsWaiting) == Count(st, IsWaiting) - (if IsWaiting(st[id]) then 1 else 0) + (if IsWaiting(x) then 1 else 0)
    ensures Count(st[id := x], IsCutting) == Count(st, IsCutting) - (if IsCutting(st[id]) then 1 else 0) + (if IsCutting(x) then 1 else 0)
  {
    CountUpdate(st, id, x, IsPending);
    CountUpdate(st, id, x, IsWaiting);
    CountUpdate(st, id, x, IsCutting);
  }

  /** A customer who is not being cut may change to any such status. */
  lemma HousedAside(rooms: seq<Option<nat>>, st: seq<Status>, id: nat, x: Status)
    requires Housed(rooms, st) && id < |st| && st[id] != Cutting && x != Cutting
    ensures Housed(rooms, st[id := x])
  {
  }

  lemma HousedIn(rooms: seq<Option<nat>>, st: seq<Status>, id: nat, room: nat)
    requires Housed(rooms, st) && id < |st| && st[id] != Cutting && room < |rooms| && rooms[room] == None
    ensures Housed(rooms[room := Some(id)], st[id := Cutting])
  {
    var r, t := rooms[room := Some(id)], st[id := Cutting];
    forall c | 0 <= c < |t| && t[c] == Cutting ensures Some(c) in r {
      if c != id { var b :| 0 <= b < |rooms| && rooms[b] == Some(c); assert r[b] == Some(c); } else { assert r[room] == Some(c); }
    }
  }

  lemma HousedOut(rooms: seq<Option<nat>>, st: seq<Status>, id: nat, room: nat, x: Status)
    requires Housed(rooms, st) && id < |st| && x != Cutting && room < |rooms| && rooms[room] == Some(id)
    ensures Housed(rooms[room := None], st[id := x])
  {
    var r, t := rooms[room := None], st[id := x];
    forall c | 0 <= c < |t| && t[c] == Cutting ensures Some(c) in r {
      var b :| 0 <= b < |rooms| && rooms[b] == Some(c);
      assert r[b] == Some(c);
    }
  }

  lemma ArrivedKeeps(h: Shop)
    requires Sound(h)
    ensures Sound(Arrived(h))
  {
    CountAppend(h.statuses, Pending, IsPending);
    CountAppend(h.statuses, Pending, IsWaiting);
    CountAppend(h.statuses, Pending, IsCutting);
    hide Count;
  }

  /** A complaint about anything but a dismissal changes nothing else. */
  lemma ComplainKeeps(h: Shop, x: Complaint)
    requires Sound(h) && x !in {DismissPending, DismissWait, DismissDone, DismissReject}
    ensures Sound(Complain(h, x))
  {
    hide Gauged, Housed;
    assert Gauged(Complain(h, x)) by { GaugedByCounts(h, Complain(h, x)); }
  }

  lemma GaugedByCounts(h: Shop, t: Shop)
    requires Gauged(h) && t.statuses == h.statuses && t.pending == h.pending && t.waiting == h.waiting && t.cutting == h.cutting
    ensures Gauged(t)
  {
  }

  lemma AcceptedKeeps(h: Shop, id: nat)
    requires Sound(h) && id < |h.statuses|
    ensures Sound(Accepted(h, id))
  {
    match h.statuses[id]
    case Pending => TakesSeat(h, id);
    case Waiting => ComplainKeeps(h, AcceptWait);
    case Cutting => ComplainKeeps(h, AcceptCut);
    case Done => ComplainKeeps(h, AcceptDone);
    case Rejected => ComplainKeeps(h, AcceptReject);
    hide Sound, Complain;
  }

  lemma TakesSeat(h: Shop, id: nat)
    requires Sound(h) && id < |h.statuses| && h.statuses[id] == Pending
    ensures Sound(Accepted(h, id))
  {
    hide Count, Housed;
    StatusMoves(h.statuses, id, Waiting);
    HousedAside(h.occupancy, h.statuses, id, Waiting);
  }

  lemma TurnedAwayKeeps(h: Shop, id: nat)
    requires Sound(h) && id < |h.statuses|
    ensures Sound(TurnedAway(h, id))
  {
    match h.statuses[id]
    case Pending => IsRejected(h, id);
    case Waiting => ComplainKeeps(h, RejectWait);
    case Cutting => ComplainKeeps(h, RejectCut);
    case Done => ComplainKeeps(h, RejectDone);
    case Rejected => ComplainKeeps(h, RejectAgain);
    hide Sound, Complain;
  }

  lemma IsRejected(h: Shop, id: nat)
    requires Sound(h) && id < |h.statuses| && h.statuses[id] == Pending
    ensures Sound(TurnedAway(h, id))
  {
    hide Count, Housed;
    StatusMoves(h.statuses, id, Rejected);
    HousedAside(h.occupancy, h.statuses, id, Rejected);
  }

  lemma PreparedKeeps(h: Shop, id: nat, room: nat, self: bool)
    requires Sound(h) && id < |h.statuses| && room < |h.occupancy|
    ensures Sound(Prepared(h, id, room, self))
  {
    if h.occupancy[room].Some? && h.occupancy[room] != Some(id) {
      ComplainKeeps(h, PrepareBusy);
    } else {
      match h.statuses[id]
      case Pending => ComplainKeeps(h, PreparePending);
      case Waiting =>
        if self { ComplainKeeps(h, PrepareSelf); }
        TakesRoom(if self then Complain(h, PrepareSelf) else h, id, room);
      case Cutting => ComplainKeeps(h, PrepareAgain);
      case Done => ComplainKeeps(h, PrepareDone);
      case Rejected => ComplainKeeps(h, PrepareReject);
    }
    hide Sound;
  }

  /** A waiting customer is in no room, so the room is empty or another's. */
  lemma TakesRoom(h: Shop, id: nat, room: nat)
    requires Sound(h) && id < |h.statuses| && h.statuses[id] == Waiting && room < |h.occupancy| && h.occupancy[room] in {None, Some(id)}
    ensures h.occupancy[room] == None
    ensures Sound(h.(occupancy := h.occupancy[room := Some(id)], statuses := h.statuses[id := Cutting],
                     cutting := h.cutting + 1, waiting := h.waiting - 1))
  {
    assert h.occupancy[room] == None;
    hide Count, Housed;
    StatusMoves(h.statuses, id, Cutting);
    HousedIn(h.occupancy, h.statuses, id, room);
  }

  lemma DismissedKeeps(h: Shop, id: nat, room: nat, self: bool, fast: bool, slow: bool)
    requires Sound(h) && id < |h.statuses| && room < |h.occupancy|
    ensures Sound(Dismissed(h, id, room, self, fast, slow))
  {
    if h.occupancy[room] != Some(id) {
      ComplainKeeps(h, DismissRoom);
    } else {
      assert h.statuses[id] == Cutting;
      if self { ComplainKeeps(h, DismissSelf); }
      var t := if self then Complain(h, DismissSelf) else h;
      if fast { ComplainKeeps(t, CutFast); }
      var u := if fast then Complain(t, CutFast) else t;
      if slow { ComplainKeeps(u, CutSlow); }
      LeavesRoom(if slow then Complain(u, CutSlow) else u, id, room);
    }
    hide Sound;
  }

  lemma LeavesRoom(h: Shop, id: nat, room: nat)
    requires Sound(h) && id < |h.statuses| && h.statuses[id] == Cutting && room < |h.occupancy| && h.occupancy[room] == Some(id)
    ensures Sound(h.(occupancy := h.occupancy[room := None], statuses := h.statuses[id := Done], cutting := h.cutting - 1))
  {
    hide Count, Housed;
    StatusMoves(h.statuses, id, Done);
    HousedOut(h.occupancy, h.statuses, id, room, Done);
  }

  // ---- any client -----------------------------------------------------------------------------

  datatype Call =
    | Arrive
    | Accept(id: nat)
    | Reject(id: nat)
    | Prepare(id: nat, room: nat, self: bool)
    | Dismiss(id: nat, room: nat, self: bool, fast: bool, slow: bool)
    | Depart(id: nat)

  /** The customer has arrived and the room exists. */
  predicate Legal(h: Shop, call: Call) {
    match call
    case Arrive => true
    case Accept(id) => id < |h.statuses|
    case Reject(id) => id < |h.statuses|
    case Prepare(id, room, _) => id < |h.statuses| && room < |h.occupancy|
    case Dismiss(id, room, _, _, _) => id < |h.statuses| && room < |h.occupancy|
    case Depart(id) => id < |h.statuses|
  }

  function Answered(h: Shop, call: Call): Shop requires Legal(h, call) {
    match call
    case Arrive => Arrived(h)
    case Accept(id) => Accepted(h, id)
    case Reject(id) => TurnedAway(h, id)
    case Prepare(id, room, self) => Prepared(h, id, room, self)
    case Dismiss(id, room, self, fast, slow) => Dismissed(h, id, room, self, fast, slow)
    case Depart(id) => Departed(h, id)
  }

  lemma CallKeeps(h: Shop, call: Call)
    requires Sound(h) && Legal(h, call)
    ensures Sound(Answered(h, call))
  {
    match call
    case Arrive => ArrivedKeeps(h);
    case Accept(id) => AcceptedKeeps(h, id);
    case Reject(id) => TurnedAwayKeeps(h, id);
    case Prepare(id, room, self) => PreparedKeeps(h, id, room, self);
    case Dismiss(id, room, self, fast, slow) => DismissedKeeps(h, id, room, self, fast, slow);
    case Depart(id) =>
  }

  /** A customer's life: pending, then rejected, or waiting, being cut, and done. */
  predicate Follows(a: Status, b: Status) {
    || a == b
    || (a == Pending && (b == Waiting || b == Rejected))
    || (a == Waiting && b == Cutting)
    || (a == Cutting && b == Done)
  }

  /** Everyone's life goes on, and no complaint is forgotten. */
  ghost predicate MovesOn(h: Shop, t: Shop) {
    && |h.statuses| <= |t.statuses| && h.complaints <= t.complaints
    && (forall c {:trigger h.statuses[c]} :: 0 <= c < |h.statuses| ==> Follows(h.statuses[c], t.statuses[c]))
  }

  /** A change of one status that goes on, whatever complaint comes with it. */
  lemma OneMovesOn(h: Shop, t: Shop, id: nat, x: Status)
    requires id < |h.statuses| && Follows(h.statuses[id], x) && h.complaints <= t.complaints
    requires t.statuses == h.statuses || t.statuses == h.statuses[id := x]
    ensures MovesOn(h, t)
  {
  }

  lemma AcceptedMovesOn(h: Shop, id: nat)
    requires id < |h.statuses|
    ensures MovesOn(h, Accepted(h, id))
  {
    OneMovesOn(h, Accepted(h, id), id, if h.statuses[id] == Pending then Waiting else h.statuses[id]);
    hide MovesOn;
  }

  lemma TurnedAwayMovesOn(h: Shop, id: nat)
    requires id < |h.statuses|
    ensures MovesOn(h, TurnedAway(h, id))
  {
    OneMovesOn(h, TurnedAway(h, id), id, if h.statuses[id] == Pending then Rejected else h.statuses[id]);
    hide MovesOn;
  }

  lemma PreparedMovesOn(h: Shop, id: nat, room: nat, self: bool)
    requires id < |h.statuses| && room < |h.occupancy|
    ensures MovesOn(h, Prepared(h, id, room, self))
  {
    OneMovesOn(h, Prepared(h, id, room, self), id, if h.statuses[id] == Waiting then Cutting else h.statuses[id]);
    hide MovesOn;
  }

  lemma DismissedMovesOn(h: Shop, id: nat, room: nat, self: bool, fast: bool, slow: bool)
    requires id < |h.statuses| && room < |h.occupancy|
    ensures MovesOn(h, Dismissed(h, id, room, self, fast, slow))
  {
    OneMovesOn(h, Dismissed(h, id, room, self, fast, slow), id, if h.statuses[id] == Cutting then Done else h.statuses[id]);
    hide MovesOn;
  }

  /** No call moves a customer back or past a stage. */
  lemma CallMovesOn(h: Shop, call: Call)
    requires Legal(h, call)
    ensures MovesOn(h, Answered(h, call))
  {
    hide Accepted, TurnedAway, Prepared, Dismissed;
    match call
    case Arrive =>
    case Accept(id) => AcceptedMovesOn(h, id);
    case Reject(id) => TurnedAwayMovesOn(h, id);
    case Prepare(id, room, self) => PreparedMovesOn(h, id, room, self);
    case Dismiss(id, room, self, fast, slow) => DismissedMovesOn(h, id, room, self, fast, slow);
    case Depart(id) => OneMovesOn(h, Departed(h, id), id, h.statuses[id]);
  }

  /** The customer that a call is about has status x. */
  predicate Of(h: Shop, call: Call, x: Status) requires Legal(h, call) { !call.Arrive? && h.statuses[call.id] == x }

  /** The room that a call names is taken by somebody else. */
  predicate RoomOfAnother(h: Shop, call: Call) requires Legal(h, call) {
    (call.Prepare? || call.Dismiss?) && h.occupancy[call.room].Some? && h.occupancy[call.room] != Some(call.id)
  }

  /** When each complaint is drawn. */
  predicate Draws(h: Shop, call: Call, x: Complaint) requires Legal(h, call) {
    match x
    case AcceptFull => call.Accept? && Of(h, call, Pending) && h.waiting >= h.chairs
    case AcceptWait => call.Accept? && Of(h, call, Waiting)
    case AcceptCut => call.Accept? && Of(h, call, Cutting)
    case AcceptDone => call.Accept? && Of(h, call, Done)
    case AcceptReject => call.Accept? && Of(h, call, Rejected)
    case RejectAvail => call.Reject? && Of(h, call, Pending) && h.waiting < h.chairs
    case RejectWait => call.Reject? && Of(h, call, Waiting)
    case RejectCut => call.Reject? && Of(h, call, Cutting)
    case RejectDone => call.Reject? && Of(h, call, Done)
    case RejectAgain => call.Reject? && Of(h, call, Rejected)
    case PrepareBusy => call.Prepare? && RoomOfAnother(h, call)
    case PreparePending => call.Prepare? && Of(h, call, Pending) && !RoomOfAnother(h, call)
    case PrepareAgain => call.Prepare? && Of(h, call, Cutting) && !RoomOfAnother(h, call)
    case PrepareDone => call.Prepare? && Of(h, call, Done) && !RoomOfAnother(h, call)
    case PrepareReject => call.Prepare? && Of(h, call, Rejected) && !RoomOfAnother(h, call)
    case PrepareSelf => call.Prepare? && Of(h, call, Waiting) && !RoomOfAnother(h, call) && call.self
    case DismissRoom => call.Dismiss? && h.occupancy[call.room] != Some(call.id)
    case DismissSelf => call.Dismiss? && h.occupancy[call.room] == Some(call.id) && call.self
    case CutFast => call.Dismiss? && h.occupancy[call.room] == Some(call.id) && call.fast
    case CutSlow => call.Dismiss? && h.occupancy[call.room] == Some(call.id) && call.slow
    case DismissEarly => call.Depart? && Of(h, call, Cutting)
    case _ => false   // a dismissal of somebody who is pending, waiting, done or rejected
  }

  lemma AcceptAsks(h: Shop, id: nat, x: Complaint)
    requires id < |h.statuses|
    ensures Draws(h, Accept(id), x) <==>
              match h.statuses[id]
              case Pending => x == AcceptFull && h.waiting >= h.chairs
              case Waiting => x == AcceptWait
              case Cutting => x == AcceptCut
              case Done => x == AcceptDone
              case Rejected => x == AcceptReject
    ensures Draws(h, Reject(id), x) <==>
              match h.statuses[id]
              case Pending => x == RejectAvail && h.waiting < h.chairs
              case Waiting => x == RejectWait
              case Cutting => x == RejectCut
              case Done => x == RejectDone
              case Rejected => x == RejectAgain
  {
  }

  lemma AcceptDraws(h: Shop, id: nat, x: Complaint)
    requires id < |h.statuses|
    ensures Accepted(h, id).complaints[x] == h.complaints[x] + if Draws(h, Accept(id), x) then 1 else 0
  {
    AcceptAsks(h, id, x);
    hide Draws;
  }

  lemma RejectDraws(h: Shop, id: nat, x: Complaint)
    requires id < |h.statuses|
    ensures TurnedAway(h, id).complaints[x] == h.complaints[x] + if Draws(h, Reject(id), x) then 1 else 0
  {
    AcceptAsks(h, id, x);
    hide Draws;
  }

  lemma PrepareAsks(h: Shop, id: nat, room: nat, self: bool, x: Complaint)
    requires id < |h.statuses| && room < |h.occupancy|
    ensures Draws(h, Prepare(id, room, self), x) <==>
              if h.occupancy[room] !in {None, Some(id)} then x == PrepareBusy
              else match h.statuses[id]
                case Pending => x == PreparePending
                case Waiting => x == PrepareSelf && self
                case Cutting => x == PrepareAgain
                case Done => x == PrepareDone
                case Rejected => x == PrepareReject
  {
  }

  /** prepare of a customer that does not wait, or in a room of another. */
  lemma PrepareFails(h: Shop, id: nat, room: nat, self: bool, x: Complaint)
    requires id < |h.statuses| && room < |h.occupancy|
    requires h.statuses[id] != Waiting || h.occupancy[room] !in {None, Some(id)}
    ensures Prepared(h, id, room, self).complaints[x] == h.complaints[x] + if Draws(h, Prepare(id, room, self), x) then 1 else 0
  {
    PrepareAsks(h, id, room, self, x);
    hide Draws;
  }

  lemma PrepareDraws(h: Shop, id: nat, room: nat, self: bool, x: Complaint)
    requires Sound(h) && id < |h.statuses| && room < |h.occupancy|
    ensures Prepared(h, id, room, self).complaints[x] == h.complaints[x] + if Draws(h, Prepare(id, room, self), x) then 1 else 0
  {
    if h.statuses[id] == Waiting && h.occupancy[room] in {None, Some(id)} {
      PrepareAsks(h, id, room, self, x);
      TakesRoom(h, id, room);
      hide Sound, Draws;
    } else {
      hide *;
      PrepareFails(h, id, room, self, x);
    }
  }

  lemma TimedDraws(h: Shop, fast: bool, slow: bool, x: Complaint)
    ensures Timed(h, fast, slow).complaints[x] == h.complaints[x] + if (fast && x == CutFast) || (slow && x == CutSlow) then 1 else 0
  {
  }

  /** dismiss of a customer in its own room. */
  lemma FinishDraws(h: Shop, id: nat, room: nat, self: bool, fast: bool, slow: bool, x: Complaint)
    requires id < |h.statuses| && room < |h.occupancy| && h.occupancy[room] == Some(id) && h.statuses[id] == Cutting
    ensures Dismissed(h, id, room, self, fast, slow).complaints[x]
            == h.complaints[x] + if (self && x == DismissSelf) || (fast && x == CutFast) || (slow && x == CutSlow) then 1 else 0
  {
    TimedDraws(if self then Complain(h, DismissSelf) else h, fast, slow, x);
    hide Timed;
  }

  lemma DismissAsks(h: Shop, id: nat, room: nat, self: bool, fast: bool, slow: bool, x: Complaint)
    requires id < |h.statuses| && room < |h.occupancy|
    ensures Draws(h, Dismiss(id, room, self, fast, slow), x) <==>
              if h.occupancy[room] == Some(id) then (self && x == DismissSelf) || (fast && x == CutFast) || (slow && x == CutSlow)
              else x == DismissRoom
  {
  }

  lemma DismissDraws(h: Shop, id: nat, room: nat, self: bool, fast: bool, slow: bool, x: Complaint)
    requires Sound(h) && id < |h.statuses| && room < |h.occupancy|
    ensures Dismissed(h, id, room, self, fast, slow).complaints[x]
            == h.complaints[x] + if Draws(h, Dismiss(id, room, self, fast, slow), x) then 1 else 0
  {
    DismissAsks(h, id, room, self, fast, slow, x);
    hide Draws, Timed;
    if h.occupancy[room] == Some(id) {
      assert h.statuses[id] == Cutting;
      hide *;
      FinishDraws(h, id, room, self, fast, slow, x);
    } else {
      assert Dismissed(h, id, room, self, fast, slow) == Complain(h, DismissRoom);
      hide Sound, Dismissed;
    }
  }

  /** In a sound shop a call draws exactly these complaints, each once. */
  lemma DrawnExactly(h: Shop, call: Call, x: Complaint)
    requires Sound(h) && Legal(h, call)
    ensures Answered(h, call).complaints[x] == h.complaints[x] + if Draws(h, call, x) then 1 else 0
  {
    match call
    case Arrive =>
    case Accept(id) => AcceptDraws(h, id, x);
    case Reject(id) => RejectDraws(h, id, x);
    case Prepare(id, room, self) => PrepareDraws(h, id, room, self, x);
    case Dismiss(id, room, self, fast, slow) => DismissDraws(h, id, room, self, fast, slow, x);
    case Depart(id) =>
    hide Sound, Accepted, TurnedAway, Prepared, Dismissed;
  }

  /** And it moves nobody but its customer: from pending to waiting or rejected, into an empty room, or out of its own. */
  lemma MovedExactly(h: Shop, call: Call)
    requires Sound(h) && Legal(h, call) && !call.Arrive?
    ensures var t, id := Answered(h, call), call.id;
      && |t.statuses| == |h.statuses| && (forall c :: 0 <= c < |h.statuses| && c != id ==> t.statuses[c] == h.statuses[c])
      && (t.statuses[id] == Waiting != h.statuses[id] <==> call.Accept? && h.statuses[id] == Pending)
      && (t.statuses[id] == Rejected != h.statuses[id] <==> call.Reject? && h.statuses[id] == Pending)
      && (t.statuses[id] == Cutting != h.statuses[id] <==> call.Prepare? && h.statuses[id] == Waiting && h.occupancy[call.room] == None)
      && (t.statuses[id] == Done != h.statuses[id] <==> call.Dismiss? && h.occupancy[call.room] == Some(id))
      && (t.statuses[id] == Pending ==> h.statuses[id] == Pending)
  {
    if call.Prepare? && Of(h, call, Waiting) && !RoomOfAnother(h, call) { TakesRoom(h, call.id, call.room); }
    if call.Dismiss? && h.occupancy[call.room] == Some(call.id) { assert h.statuses[call.id] == Cutting; }
    hide Gauged, Housed, Honest;
  }

  /** Rooms change hands only so. */
  lemma RoomsExactly(h: Shop, call: Call)
    requires Sound(h) && Legal(h, call) && !call.Arrive?
    ensures var t := Answered(h, call); |t.occupancy| == |h.occupancy| && forall b :: 0 <= b < |h.occupancy| ==>
      t.occupancy[b] == if call.Prepare? && b == call.room && h.statuses[call.id] == Waiting && h.occupancy[b] == None then Some(call.id)
                        else if call.Dismiss? && b == call.room && h.occupancy[b] == Some(call.id) then None
                        else h.occupancy[b]
  {
    if call.Prepare? && Of(h, call, Waiting) && !RoomOfAnother(h, call) { TakesRoom(h, call.id, call.room); }
    if call.Dismiss? && h.occupancy[call.room] == Some(call.id) { assert h.statuses[call.id] == Cutting; }
    hide Gauged, Housed, Honest;
  }

  /** The calls lead from h to t, in any order and with any arguments. */
  ghost predicate Serves(h: Shop, calls: seq<Call>, t: Shop)
    decreases |calls|
  {
    if calls == [] then h == t else Legal(h, calls[0]) && Serves(Answered(h, calls[0]), calls[1..], t)
  }

  lemma {:induction false} CallsKeep(h: Shop, calls: seq<Call>, t: Shop)
    requires Sound(h) && Serves(h, calls, t)
    ensures Sound(t)
    decreases |calls|
  {
    hide Sound, Legal, Answered;
    if calls != [] {
      CallKeeps(h, calls[0]);
      CallsKeep(Answered(h, calls[0]), calls[1..], t);
    }
  }

  /** Whatever a client does, in whatever order: the gauges are the numbers of customers pending, waiting and
      being cut; those being cut and the occupied rooms correspond; nobody is dismissed that was not being
      cut; and more customers than chairs wait only with a complaint. */
  lemma AnyClient(chairs: nat, barbers: nat, calls: seq<Call>, t: Shop)
    requires Serves(Opened(chairs, barbers), calls, t)
    ensures Gauged(t) && Housed(t.occupancy, t.statuses) && Honest(t)
  {
    CallsKeep(Opened(chairs, barbers), calls, t);
  }

  /** The global struct, updated in place under its mutex. */
  class Thrlab {
    const visitors: nat
    const chairs: nat
    const statuses: array<Status>
    const occupancy: array<Option<nat>>
    var customerCount: nat
    var numPending: int
    var numWaiting: int
    var numCutting: int
    var complaints: multiset<Complaint>

    ghost predicate Shaped() reads this {
      statuses.Length == visitors && customerCount <= visitors
    }

    /** The gauges, the rooms and the complaints are what they should be. */
    ghost predicate Valid() reads this, statuses, occupancy { Shaped() && Sound(Value()) }

    ghost function Value(): Shop
      requires Shaped()
      reads this, statuses, occupancy
    {
      Shop(chairs, statuses[..customerCount], occupancy[..], numPending, numWaiting, numCutting, complaints)
    }

    constructor Setup(visitors: nat, barbers: nat, chairs: nat)
      ensures Valid() && Value() == Opened(chairs, barbers) && this.visitors == visitors
    {
      this.visitors := visitors;
      this.chairs := chairs;
      statuses := new Status[visitors](_ => Pending);
      occupancy := new Option<nat>[barbers](_ => None);
      customerCount, numPending, numWaiting, numCutting := 0, 0, 0, 0;
      complaints := multiset{};
    }

    method CountComplaint(c: Complaint)
      requires Shaped()
      modifies this`complaints
      ensures Shaped() && Value() == Complain(old(Value()), c)
    {
      complaints := complaints + multiset{c};
    }

    /** One round of the arrival loop; the new id counts from 0. */
    method AddCustomer() returns (id: nat)
      requires Shaped() && customerCount < visitors
      modifies this, statuses
      ensures Shaped() && id == |old(Value()).statuses| && Value() == Arrived(old(Value()))
      ensures old(Valid()) ==> Valid()
    {
      hide Sound;
      if Sound(Value()) { ArrivedKeeps(Value()); }
      statuses[customerCount] := Pending;
      id := customerCount;
      customerCount := customerCount + 1;
      numPending := numPending + 1;
    }

    method AcceptCustomer(id: nat)
      requires Shaped() && id < customerCount
      modifies this, statuses
      ensures Shaped() && Value() == Accepted(old(Value()), id)
      ensures old(Valid()) ==> Valid()
    {
      hide Sound;
      if Sound(Value()) { AcceptedKeeps(Value(), id); }
      match statuses[id] {
        case Pending =>
          if chairs <= numWaiting { CountComplaint(AcceptFull); }
          statuses[id] := Waiting;
          numWaiting := numWaiting + 1;
          numPending := numPending - 1;
        case Waiting => CountComplaint(AcceptWait);
        case Cutting => CountComplaint(AcceptCut);
        case Done => CountComplaint(AcceptDone);
        case Rejected => CountComplaint(AcceptReject);
      }
    }

    method RejectCustomer(id: nat)
      requires Shaped() && id < customerCount
      modifies this, statuses
      ensures Shaped() && Value() == TurnedAway(old(Value()), id)
      ensures old(Valid()) ==> Valid()
    {
      hide Sound;
      if Sound(Value()) { TurnedAwayKeeps(Value(), id); }
      match statuses[id] {
        case Pending =>
          if chairs > numWaiting { CountComplaint(RejectAvail); }
          statuses[id] := Rejected;
          numPending := numPending - 1;
        case Waiting => CountComplaint(RejectWait);
        case Cutting => CountComplaint(RejectCut);
        case Done => CountComplaint(RejectDone);
        case Rejected => CountComplaint(RejectAgain);
      }
    }

    /** The case of a customer that waits, in a room that is empty or its own. */
    method StartHaircut(id: nat, room: nat, self: bool)
      requires Shaped() && id < customerCount && room < occupancy.Length
      requires (occupancy[room] == None || occupancy[room] == Some(id)) && statuses[id] == Waiting
      modifies this, statuses, occupancy
      ensures Shaped() && Value() == Prepared(old(Value()), id, room, self)
    {
      if self { CountComplaint(PrepareSelf); }
      if occupancy[room].Some? {
        CountComplaint(PrepareBusy);
      } else {
        occupancy[room] := Some(id);
        statuses[id] := Cutting;
        numCutting := numCutting + 1;
        numWaiting := numWaiting - 1;
      }
    }

    method PrepareCustomer(id: nat, room: nat, self: bool)
      requires Shaped() && id < customerCount && room < occupancy.Length
      modifies this, statuses, occupancy
      ensures Shaped() && Value() == Prepared(old(Value()), id, room, self)
      ensures old(Valid()) ==> Valid()
    {
      hide Sound;
      if Sound(Value()) { PreparedKeeps(Value(), id, room, self); }
      if occupancy[room].Some? && occupancy[room] != Some(id) {
        CountComplaint(PrepareBusy);
        return;
      }
      match statuses[id] {
        case Pending => CountComplaint(PreparePending);
        case Waiting => StartHaircut(id, room, self);
        case Cutting => CountComplaint(PrepareAgain);
        case Done => CountComplaint(PrepareDone);
        case Rejected => CountComplaint(PrepareReject);
      }
    }

    /** The two complaints about the time a haircut took. */
    method TimeHaircut(fast: bool, slow: bool)
      requires Shaped()
      modifies this`complaints
      ensures Shaped() && Value() == Timed(old(Value()), fast, slow)
    {
      if fast { CountComplaint(CutFast); }
      if slow { CountComplaint(CutSlow); }
    }

    /** The case of a customer that is being cut in this room. */
    method FinishHaircut(id: nat, room: nat, self: bool, fast: bool, slow: bool)
      requires Shaped() && id < customerCount && room < occupancy.Length
      requires occupancy[room] == Some(id) && statuses[id] == Cutting
      modifies this, statuses, occupancy
      ensures Shaped() && Value() == Dismissed(old(Value()), id, room, self, fast, slow)
    {
      if self { CountComplaint(DismissSelf); }
      TimeHaircut(fast, slow);
      occupancy[room] := None;
      statuses[id] := Done;
      numCutting := numCutting - 1;
    }

    method DismissCustomer(id: nat, room: nat, self: bool, fast: bool, slow: bool)
      requires Shaped() && id < customerCount && room < occupancy.Length
      modifies this, statuses, occupancy
      ensures Shaped() && Value() == Dismissed(old(Value()), id, room, self, fast, slow)
      ensures old(Valid()) ==> Valid()
    {
      hide Sound;
      if Sound(Value()) { DismissedKeeps(Value(), id, room, self, fast, slow); }
      hide Timed;
      if occupancy[room] != Some(id) {
        CountComplaint(DismissRoom);
        return;
      }
      match statuses[id] {
        case Pending => CountComplaint(DismissPending);
        case Waiting => CountComplaint(DismissWait);
        case Cutting => FinishHaircut(id, room, self, fast, slow);
        case Done => CountComplaint(DismissDone);
        case Rejected => CountComplaint(DismissReject);
      }
    }

    /** The check at the end of a customer's thread. */
    method CheckDeparture(id: nat)
      requires Shaped() && id < customerCount
      modifies this`complaints
      ensures Shaped() && Value() == Departed(old(Value()), id)
      ensures old(Valid()) ==> Valid()
    {
      hide Sound;
      if Sound(Value()) { CallKeeps(Value(), Depart(id)); }
      if statuses[id] == Cutting {
        CountComplaint(DismissEarly);
      }
    }
  }
}
