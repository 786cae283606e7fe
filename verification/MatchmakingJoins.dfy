/** When a user may join: what the runs keep if nobody joins while something of theirs is left, and what breaks else. */
module MatchmakingJoins {
  import opened Optional
  import opened Matchmaking
  import opened MatchmakingRuns

  // ----- the condition -----

  ghost predicate HasCall(calls: map<JoinId, Call>, user: User) {
    exists id :: id in calls && calls[id].entry.user == user
  }

  ghost predicate HasScan(cancels: map<int, Cancelling>, user: User) {
    exists c :: c in cancels && cancels[c] == Scan(user)
  }

  ghost predicate HasQueued(q: seq<Raw>, user: User) {
    exists e :: Parsed(e) in q && e.user == user
  }

  ghost predicate HasTell(plan: seq<Op>, user: User) {
    exists r :: Tell(user, r) in plan
  }

  /**
   * Nothing of the user is left: no earlier call still to end, no cancel still to read the queue, no entry queued,
   * and no result on its way from the pass. Join itself looks at the waiters only.
   */
  ghost predicate Clear(s: State, user: User) {
    && !HasCall(s.calls, user)
    && !HasScan(s.cancels, user)
    && !HasQueued(s.queue, user)
    && !HasTell(s.plan, user)
  }

  ghost predicate ClearStep(s: State, step: Step) {
    step.Joins? ==> step.entry.user in s.waiters || Clear(s, step.entry.user)
  }

  /** Users join only when nothing of theirs is left; everything else may happen at any time. */
  ghost predicate ClearRun(s: State, steps: seq<Step>)
    requires Valid(s, steps)
    decreases |steps|
  {
    steps != [] ==> ClearStep(s, steps[0]) && ClearRun(Next(s, steps[0]), steps[1..])
  }

  // ----- what must not happen -----

  /** A user is queued twice. */
  ghost predicate Twice(s: State) {
    exists e, f :: Parsed(e) in s.queue && Parsed(f) in s.queue && e != f && e.user == f.user
  }

  /** A pair is, or will be, made of one user. */
  ghost predicate SelfPair(s: State) {
    exists k :: 0 <= k < |Promised(s)| && Promised(s)[k].Pair? &&
      Promised(s)[k].first.user == Promised(s)[k].second.user
  }

  /** A call was sent to a room its entry is not in. */
  ghost predicate Misled(s: State) {
    exists id :: id in s.calls && s.calls[id].result.Matched? &&
      !Holds(Promised(s), s.calls[id].entry, s.calls[id].result.room)
  }

  /** A call nobody cancelled is not the one registered for its user: no result can reach it. */
  ghost predicate Dropped(s: State) {
    exists id :: id in s.calls && !s.calls[id].cancelled && !IsRegistered(s, id)
  }

  /** A call nobody cancelled lost its place in the queue for nothing. */
  ghost predicate Robbed(s: State) {
    exists id :: id in s.calls && s.calls[id].pushed && !s.calls[id].cancelled
      && Parsed(s.calls[id].entry) !in s.queue && !Placed(Promised(s), s.calls[id].entry)
  }

  ghost predicate IsRegistered(s: State, id: JoinId)
    requires id in s.calls
  {
    s.calls[id].entry.user in s.waiters && s.waiters[s.calls[id].entry.user] == id
  }

  ghost predicate Good(s: State) {
    !Twice(s) && !SelfPair(s) && !Misled(s) && !Dropped(s) && !Robbed(s)
  }

  // ----- what clear runs keep -----

  ghost predicate QueuedOnce(q: seq<Raw>) {
    forall e, f :: Parsed(e) in q && Parsed(f) in q && e.user == f.user ==> e == f
  }

  ghost predicate QueuedIsTheirs(q: seq<Raw>, calls: map<JoinId, Call>) {
    forall e, id :: Parsed(e) in q && id in calls && calls[id].entry.user == e.user ==> calls[id].entry == e
  }

  ghost predicate OneCall(calls: map<JoinId, Call>) {
    forall i, j :: i in calls && j in calls && i != j ==> calls[i].entry.user != calls[j].entry.user
  }

  ghost predicate TellsTheirs(plan: seq<Op>, calls: map<JoinId, Call>, rooms: seq<Room>) {
    forall u, r :: Tell(u, r) in plan ==>
      r.Matched? && forall id :: id in calls && calls[id].entry.user == u ==> Holds(rooms, calls[id].entry, r.room)
  }

  ghost predicate ToldRight(calls: map<JoinId, Call>, rooms: seq<Room>) {
    forall id :: id in calls && calls[id].result.Matched? ==> Holds(rooms, calls[id].entry, calls[id].result.room)
  }

  ghost predicate CancelsHit(cancels: map<int, Cancelling>, calls: map<JoinId, Call>) {
    && (forall c, id :: c in cancels && id in calls && cancels[c] == Scan(calls[id].entry.user) ==> calls[id].cancelled)
    && (forall c, id :: c in cancels && id in calls && cancels[c] == Remove(calls[id].entry) ==> calls[id].cancelled)
  }

  ghost predicate Attached(waiters: map<User, JoinId>, calls: map<JoinId, Call>) {
    forall id :: id in calls && !calls[id].cancelled ==>
      calls[id].entry.user in waiters && waiters[calls[id].entry.user] == id
  }

  ghost predicate PlaceKept(q: seq<Raw>, calls: map<JoinId, Call>, rooms: seq<Room>) {
    forall id :: id in calls && calls[id].pushed && !calls[id].cancelled ==>
      Parsed(calls[id].entry) in q || Placed(rooms, calls[id].entry)
  }

  /** The call is told of room k, or will be, or its AI could not enter. */
  ghost predicate Hears(call: Call, k: int, plan: seq<Op>, turned: set<Entry>) {
    Telling(plan, call.entry.user, k) || (call.result.Matched? && call.result.room == k) || call.entry in turned
  }

  ghost predicate AllHear(calls: map<JoinId, Call>, plan: seq<Op>, rooms: seq<Room>, turned: set<Entry>) {
    forall id, k :: id in calls && !calls[id].cancelled && Holds(rooms, calls[id].entry, k) ==>
      Hears(calls[id], k, plan, turned)
  }

  ghost predicate NoSelfPairs(rooms: seq<Room>) {
    forall k :: 0 <= k < |rooms| && rooms[k].Pair? ==> rooms[k].first.user != rooms[k].second.user
  }

  /** Queue, calls and cancels agree. */
  ghost predicate Placing(s: State) {
    && QueuedOnce(s.queue) && QueuedIsTheirs(s.queue, s.calls) && OneCall(s.calls)
    && CancelsHit(s.cancels, s.calls) && Attached(s.waiters, s.calls)
    && PlaceKept(s.queue, s.calls, Promised(s))
  }

  /** Rooms, results and the pass agree with the calls. */
  ghost predicate Hearing(s: State) {
    && TellsTheirs(s.plan, s.calls, Promised(s)) && ToldRight(s.calls, Promised(s))
    && AllHear(s.calls, s.plan, Promised(s), s.turned)
    && NoSelfPairs(Promised(s))
  }

  ghost predicate Inv(s: State) {
    Tidy(s) && Placing(s) && Hearing(s)
  }

  lemma InvIsGood(s: State)
    requires Inv(s)
    ensures Good(s)
  {
  }

  lemma ClearJoinKeepsPlacing(s: State, id: JoinId, e: Entry)
    requires Placing(s) && CancelsKnown(s.cancels, s.used) && Enabled(s, Joins(id, e)) && e.user !in s.waiters
    requires Clear(s, e.user)
    ensures Placing(Register(s, id, e))
  {
  }

  lemma ClearJoinKeepsHearing(s: State, id: JoinId, e: Entry)
    requires Hearing(s) && OneRoomEach(Promised(s), s.used) && Enabled(s, Joins(id, e)) && e.user !in s.waiters
    requires Clear(s, e.user)
    ensures Hearing(Register(s, id, e))
  {
    assert forall k :: Holds(Promised(s), e, k) ==> e in s.used;
    var t := Register(s, id, e);
    forall i, k | i in t.calls && !t.calls[i].cancelled && Holds(Promised(t), t.calls[i].entry, k)
      ensures Hears(t.calls[i], k, t.plan, t.turned)
    {
      assert Hears(s.calls[i], k, s.plan, s.turned);
    }
  }

  lemma ClearJoinKeepsInv(s: State, id: JoinId, e: Entry)
    requires Inv(s) && Enabled(s, Joins(id, e)) && (e.user in s.waiters || Clear(s, e.user))
    ensures Inv(Register(s, id, e))
  {
    if e.user !in s.waiters {
      JoinKeepsTidy(s, id, e);
      ClearJoinKeepsPlacing(s, id, e);
      ClearJoinKeepsHearing(s, id, e);
    }
  }

  /** A change that keeps each call's entry and result, and takes back no cancellation, is heard the same. */
  lemma SameHearing(s: State, t: State)
    requires Hearing(s) && t.plan == s.plan && t.turned == s.turned && Promised(t) == Promised(s)
    requires t.calls.Keys == s.calls.Keys
    requires forall id :: id in s.calls ==>
               t.calls[id].entry == s.calls[id].entry && t.calls[id].result == s.calls[id].result
    requires forall id :: id in s.calls && s.calls[id].cancelled ==> t.calls[id].cancelled
    ensures Hearing(t)
  {
    forall id, k | id in t.calls && !t.calls[id].cancelled && Holds(Promised(t), t.calls[id].entry, k)
      ensures Hears(t.calls[id], k, t.plan, t.turned)
    {
      assert Hears(s.calls[id], k, s.plan, s.turned);
    }
  }

  lemma PushKeepsPlacing(s: State, id: JoinId)
    requires Placing(s) && id in s.calls && !s.calls[id].pushed
    requires UnpushedIsNowhere(s.queue, s.calls, Promised(s))
    ensures Placing(Push(s, id))
  {
    var q := Push(s, id).queue;
    assert forall x :: x in q <==> x in s.queue || x == Parsed(s.calls[id].entry);
  }

  lemma PushKeepsInv(s: State, id: JoinId)
    requires Inv(s) && Enabled(s, Pushes(id))
    ensures Inv(Push(s, id))
  {
    PushKeepsTidy(s, id);
    PushKeepsPlacing(s, id);
    SameHearing(s, Push(s, id));
  }

  lemma LeaveKeepsInv(s: State, id: JoinId)
    requires Inv(s) && id in s.calls
    ensures Inv(Leave(s, id))
  {
    LeaveKeepsTidy(s, id);
  }

  lemma CloseKeepsPlacing(s: State, c: int, user: User)
    requires Placing(s) && WaitersKnown(s.waiters, s.calls) && c !in s.cancels
    ensures Placing(Close(s, user).(cancels := s.cancels[c := Scan(user)]))
  {
  }

  lemma CloseKeepsInv(s: State, c: int, user: User)
    requires Inv(s) && Enabled(s, Cancels(c, user))
    ensures Inv(Next(s, Cancels(c, user)))
  {
    CloseKeepsTidy(s, c, user);
    CloseKeepsPlacing(s, c, user);
    SameHearing(s, Close(s, user).(cancels := s.cancels[c := Scan(user)]));
  }

  lemma CancelReadKeepsInv(s: State, c: int)
    requires Inv(s) && Enabled(s, CancelReads(c))
    ensures Inv(Next(s, CancelReads(c)))
  {
    StepKeepsTidy(s, CancelReads(c));
    FirstEntryIsQueued(s.queue, s.cancels[c].user);
  }

  lemma CancelRemoveKeepsInv(s: State, c: int)
    requires Inv(s) && Enabled(s, CancelRemoves(c))
    ensures Inv(Next(s, CancelRemoves(c)))
  {
    StepKeepsTidy(s, CancelRemoves(c));
    RemoveFirstExactly(s.queue, s.cancels[c].entry);
  }

  lemma RemovalKeepsInv(s: State, e: Entry, rest: seq<Op>)
    requires Inv(s) && s.plan == [Lrem(e)] + rest
    ensures Inv(Exec(s.(plan := rest), Lrem(e)))
  {
    PassStepKeepsTidy(s, Lrem(e), rest);
    PassStepPromises(s, Lrem(e), rest);
    RemoveFirstExactly(s.queue, e);
    assert forall op :: op in s.plan <==> op == Lrem(e) || op in rest;
  }

  lemma OpeningKeepsInv(s: State, room: Room, rest: seq<Op>)
    requires Inv(s) && s.plan == [Open(room)] + rest
    ensures Inv(Exec(s.(plan := rest), Open(room)))
  {
    PassStepKeepsTidy(s, Open(room), rest);
    PassStepPromises(s, Open(room), rest);
    assert forall op :: op in s.plan <==> op == Open(room) || op in rest;
  }

  lemma TellingKeepsPlacing(s: State, u: User, r: Result, rest: seq<Op>)
    requires Placing(s) && s.plan == [Tell(u, r)] + rest
    ensures Placing(Exec(s.(plan := rest), Tell(u, r)))
  {
    PassStepPromises(s, Tell(u, r), rest);
  }

  lemma TellingKeepsHearing(s: State, u: User, r: Result, rest: seq<Op>)
    requires Hearing(s) && Attached(s.waiters, s.calls) && WaitersKnown(s.waiters, s.calls)
    requires OneRoomEach(Promised(s), s.used)
    requires s.plan == [Tell(u, r)] + rest
    ensures Hearing(Exec(s.(plan := rest), Tell(u, r)))
  {
    PassStepPromises(s, Tell(u, r), rest);
    assert forall op :: op in s.plan <==> op == Tell(u, r) || op in rest;
    var t := Exec(s.(plan := rest), Tell(u, r));
    var rooms := Promised(s);
    forall id, k | id in t.calls && !t.calls[id].cancelled && Holds(rooms, t.calls[id].entry, k)
      ensures Hears(t.calls[id], k, rest, s.turned)
    {
      assert Hears(s.calls[id], k, s.plan, s.turned);
    }
  }

  /** The user told is in the room: the call registered for them hears of its own entry's room. */
  lemma TellingKeepsInv(s: State, u: User, r: Result, rest: seq<Op>)
    requires Inv(s) && s.plan == [Tell(u, r)] + rest
    ensures Inv(Exec(s.(plan := rest), Tell(u, r)))
  {
    PassStepKeepsTidy(s, Tell(u, r), rest);
    TellingKeepsPlacing(s, u, r, rest);
    TellingKeepsHearing(s, u, r, rest);
  }

  lemma ReadKeepsPlacing(s: State, now: int, refused: set<Entry>)
    requires Placing(s) && s.plan == []
    ensures Placing(ReadQueue(s, now, refused))
  {
    var made := RoomsFor(s.queue, now);
    ReadPromises(s, now, refused);
    forall e
      ensures Placed(s.rooms, e) ==> Placed(s.rooms + made, e)
    {
      PlacedConcat(s.rooms, made, e);
    }
  }

  lemma ReadPromises(s: State, now: int, refused: set<Entry>)
    requires s.plan == []
    ensures Promised(s) == s.rooms && Promised(ReadQueue(s, now, refused)) == s.rooms + RoomsFor(s.queue, now)
  {
    PlanOpens(|s.rooms|, RoomsFor(s.queue, now), refused);
  }

  /** The results a pass has just planned are for calls in their rooms. */
  lemma ReadKeepsTells(s: State, now: int, refused: set<Entry>)
    requires NoTwins(s.queue) && QueuedIsTheirs(s.queue, s.calls) && ToldRight(s.calls, s.rooms)
    ensures TellsTheirs(ReadQueue(s, now, refused).plan, s.calls, s.rooms + RoomsFor(s.queue, now))
    ensures ToldRight(s.calls, s.rooms + RoomsFor(s.queue, now))
  {
    var made := RoomsFor(s.queue, now);
    forall u, r | Tell(u, r) in ReadQueue(s, now, refused).plan
      ensures r.Matched?
      ensures forall id :: id in s.calls && s.calls[id].entry.user == u ==>
                Holds(s.rooms + made, s.calls[id].entry, r.room)
    {
      NewTellIsTheirs(s, now, refused, u, r);
    }
    forall id | id in s.calls && s.calls[id].result.Matched?
      ensures Holds(s.rooms + made, s.calls[id].entry, s.calls[id].result.room)
    {
      HoldsConcat(s.rooms, made, s.calls[id].entry, s.calls[id].result.room);
    }
  }

  /** No pass pairs a user with themselves when nobody is queued twice. */
  lemma NewPairsAreOfTwo(rooms: seq<Room>, q: seq<Raw>, now: int, used: set<Entry>)
    requires NoSelfPairs(rooms) && QueuedOnce(q) && NoTwins(q) && OneRoomEach(rooms + RoomsFor(q, now), used)
    ensures NoSelfPairs(rooms + RoomsFor(q, now))
  {
    var made, n := RoomsFor(q, now), |rooms|;
    forall k | 0 <= k < |rooms + made| && (rooms + made)[k].Pair?
      ensures (rooms + made)[k].first.user != (rooms + made)[k].second.user
    {
      if k >= n {
        var room := made[k - n];
        assert (rooms + made)[k] == room;
        assert Holds(made, room.first, k - n) && Holds(made, room.second, k - n);
        RoomsForPlaces(q, now, room.first);
        RoomsForPlaces(q, now, room.second);
      }
    }
  }

  lemma ReadKeepsInv(s: State, now: int, refused: set<Entry>)
    requires Inv(s) && s.plan == []
    ensures Inv(ReadQueue(s, now, refused))
  {
    var made := RoomsFor(s.queue, now);
    var t := ReadQueue(s, now, refused);
    ReadKeepsTidy(s, now, refused);
    ReadKeepsPlacing(s, now, refused);
    ReadPromises(s, now, refused);
    ReadKeepsTells(s, now, refused);
    NewPairsAreOfTwo(s.rooms, s.queue, now, s.used);
    forall id, k | id in s.calls && !s.calls[id].cancelled && Holds(s.rooms + made, s.calls[id].entry, k)
      ensures Hears(s.calls[id], k, t.plan, t.turned)
    {
      NewRoomIsHeardOf(s, now, refused, id, k);
    }
  }

  lemma NewTellIsTheirs(s: State, now: int, refused: set<Entry>, u: User, r: Result)
    requires NoTwins(s.queue) && QueuedIsTheirs(s.queue, s.calls)
    requires Tell(u, r) in Plan(|s.rooms|, RoomsFor(s.queue, now), refused)
    ensures r.Matched?
    ensures forall id :: id in s.calls && s.calls[id].entry.user == u ==>
              Holds(s.rooms + RoomsFor(s.queue, now), s.calls[id].entry, r.room)
  {
    PlanTells(|s.rooms|, RoomsFor(s.queue, now), refused, u, r);
    NewRoomIsTheirs(s, now, u, r.room);
  }

  lemma NewRoomIsTheirs(s: State, now: int, u: User, k: nat)
    requires NoTwins(s.queue) && QueuedIsTheirs(s.queue, s.calls)
    requires |s.rooms| <= k < |s.rooms| + |RoomsFor(s.queue, now)|
    requires HasPlayerOf(RoomsFor(s.queue, now)[k - |s.rooms|], u)
    ensures forall id :: id in s.calls && s.calls[id].entry.user == u ==>
              Holds(s.rooms + RoomsFor(s.queue, now), s.calls[id].entry, k)
  {
    var made, n := RoomsFor(s.queue, now), |s.rooms|;
    var e :| e in Players(made[k - n]) && e.user == u;
    assert Holds(made, e, k - n);
    RoomsForPlaces(s.queue, now, e);
    HoldsConcat(s.rooms, made, e, k);
    forall id | id in s.calls && s.calls[id].entry.user == u
      ensures s.calls[id].entry == e
    {
      assert Parsed(e) in s.queue;
    }
  }

  lemma NewRoomIsHeardOf(s: State, now: int, refused: set<Entry>, id: JoinId, k: int)
    requires AllHear(s.calls, s.plan, Promised(s), s.turned)
    requires s.plan == [] && id in s.calls && !s.calls[id].cancelled
    requires Holds(s.rooms + RoomsFor(s.queue, now), s.calls[id].entry, k)
    ensures var t := ReadQueue(s, now, refused); Hears(s.calls[id], k, t.plan, t.turned)
  {
    var made, n, e := RoomsFor(s.queue, now), |s.rooms|, s.calls[id].entry;
    HoldsConcat(s.rooms, made, e, k);
    if k < n {
      assert Promised(s) == s.rooms;
      assert Hears(s.calls[id], k, s.plan, s.turned);
    } else if made[k - n].VsAI? && e in refused {
      AIRoomsAreForTheStale(s.queue, now, e, k - n);
    } else {
      PlanTellsAll(n, made, refused, e, k - n);
    }
  }

  lemma StepKeepsInv(s: State, step: Step)
    requires Inv(s) && Enabled(s, step) && ClearStep(s, step)
    ensures Inv(Next(s, step))
  {
    match step
    case Joins(id, e) => ClearJoinKeepsInv(s, id, e);
    case Pushes(id) => PushKeepsInv(s, id);
    case PushFails(id) => LeaveKeepsInv(s, id);
    case Returns(id) => LeaveKeepsInv(s, id);
    case Abandons(id) => LeaveKeepsInv(s, id);
    case Cancels(c, user) => CloseKeepsInv(s, c, user);
    case CancelReads(c) => CancelReadKeepsInv(s, c);
    case CancelRemoves(c) => CancelRemoveKeepsInv(s, c);
    case PassReads(now, refused) => ReadKeepsInv(s, now, refused);
    case PassSteps =>
      var op, rest := s.plan[0], s.plan[1..];
      assert s.plan == [op] + rest;
      match op
      case Lrem(e) => RemovalKeepsInv(s, e, rest);
      case Open(room) => OpeningKeepsInv(s, room, rest);
      case Tell(u, r) => TellingKeepsInv(s, u, r, rest);
  }

  // ----- clear runs are safe -----

  lemma {:induction false} ClearRunsKeepInv(s: State, steps: seq<Step>)
    requires Inv(s) && Valid(s, steps) && ClearRun(s, steps)
    ensures Inv(Run(s, steps))
    decreases |steps|
  {
    if steps == [] {
    } else {
      StepKeepsInv(s, steps[0]);
      ClearRunsKeepInv(Next(s, steps[0]), steps[1..]);
    }
  }

  lemma IdleHasInv()
    ensures Inv(IDLE)
  {
    assert Promised(IDLE) == [];
    assert Tidy(IDLE) && Placing(IDLE);
    assert Hearing(IDLE);
  }

  lemma ClearRunsHaveInv(steps: seq<Step>)
    requires Valid(IDLE, steps) && ClearRun(IDLE, steps)
    ensures Inv(Run(IDLE, steps))
  {
    IdleHasInv();
    ClearRunsKeepInv(IDLE, steps);
  }

  /**
   * In every interleaving of the commands of all requests and of the pass in which users join only when nothing of
   * theirs is left: nobody is queued twice or paired with themselves, nobody is sent to a room that is not theirs,
   * and no call that was not cancelled loses its waiter or its place. Cancelling and leaving are free at any time.
   */
  lemma ClearRunsAreSafe(steps: seq<Step>)
    requires Valid(IDLE, steps) && ClearRun(IDLE, steps)
    ensures Good(Run(IDLE, steps))
  {
    ClearRunsHaveInv(steps);
    InvIsGood(Run(IDLE, steps));
  }

  /**
   * Delivery. Between passes of such a run a call nobody cancelled is still queued, or holds the number of the room
   * its entry is in, or the AI could not enter that room.
   */
  lemma EveryCallIsServed(steps: seq<Step>, id: JoinId)
    requires Valid(IDLE, steps) && ClearRun(IDLE, steps)
    ensures var t := Run(IDLE, steps);
      t.plan == [] && id in t.calls && t.calls[id].pushed && !t.calls[id].cancelled ==>
        || Parsed(t.calls[id].entry) in t.queue
        || t.calls[id].entry in t.turned
        || (t.calls[id].result.Matched? && Holds(t.rooms, t.calls[id].entry, t.calls[id].result.room))
  {
    ClearRunsHaveInv(steps);
    var t := Run(IDLE, steps);
    if t.plan == [] && id in t.calls && t.calls[id].pushed && !t.calls[id].cancelled {
      ServedOnce(t, id);
    }
  }

  lemma ServedOnce(t: State, id: JoinId)
    requires PlaceKept(t.queue, t.calls, Promised(t)) && AllHear(t.calls, t.plan, Promised(t), t.turned)
    requires t.plan == [] && id in t.calls && t.calls[id].pushed && !t.calls[id].cancelled
    ensures Parsed(t.calls[id].entry) in t.queue || t.calls[id].entry in t.turned ||
      (t.calls[id].result.Matched? && Holds(t.rooms, t.calls[id].entry, t.calls[id].result.room))
  {
    assert Promised(t) == t.rooms;
    if Parsed(t.calls[id].entry) !in t.queue {
      var k :| Holds(t.rooms, t.calls[id].entry, k);
      assert Hears(t.calls[id], k, t.plan, t.turned);
    }
  }

  /** A result on its way reaches its call exactly if that user still has a waiter; a cancel in time drops it. */
  lemma TellReachesExactly(s: State, u: User, r: Result, rest: seq<Op>)
    requires Inv(s) && s.plan == [Tell(u, r)] + rest
    ensures var t := Exec(s.(plan := rest), Tell(u, r));
      (exists id :: id in t.calls && !t.calls[id].cancelled && t.calls[id].entry.user == u &&
         t.calls[id].result.Matched?
        && t.calls[id].result.room == r.room && Holds(Promised(s), t.calls[id].entry, r.room)) <==> u in s.waiters
  {
    assert Tell(u, r) in s.plan;
    if u in s.waiters {
      var id, t := s.waiters[u], Exec(s.(plan := rest), Tell(u, r));
      assert Holds(Promised(s), s.calls[id].entry, r.room);
      if s.calls[id].result.Matched? {
        assert Holds(Promised(s), s.calls[id].entry, s.calls[id].result.room);
      }
      assert id in t.calls && t.calls[id].entry == s.calls[id].entry && t.calls[id].result.room == r.room;
    }
  }

  // ----- and the condition is needed -----

  /** Nothing goes wrong from here, as long as later joins are clear. */
  ghost predicate SafeFrom(t: State) {
    forall steps :: Valid(t, steps) && ClearRun(t, steps) ==> Good(Run(t, steps))
  }

  lemma RunOne(t: State, step: Step)
    requires Enabled(t, step) && !step.Joins?
    ensures Valid(t, [step]) && ClearRun(t, [step]) && Run(t, [step]) == Next(t, step)
  {
    assert [step][1..] == [];
  }

  lemma RunCons(t: State, step: Step, rest: seq<Step>)
    requires Enabled(t, step) && !step.Joins? && Valid(Next(t, step), rest) && ClearRun(Next(t, step), rest)
    ensures Valid(t, [step] + rest) && ClearRun(t, [step] + rest) && Run(t, [step] + rest) == Run(Next(t, step), rest)
  {
    assert ([step] + rest)[0] == step && ([step] + rest)[1..] == rest;
  }

  /** With an earlier call still to end, its deferred cleanup deletes the new waiter. */
  lemma EarlierCallDrops(s: State, id: JoinId, e: Entry) returns (steps: seq<Step>)
    requires Inv(s) && Enabled(s, Joins(id, e)) && e.user !in s.waiters && HasCall(s.calls, e.user)
    ensures var t := Register(s, id, e); Valid(t, steps) && ClearRun(t, steps) && Dropped(Run(t, steps))
  {
    var i :| i in s.calls && s.calls[i].entry.user == e.user;
    var t := Register(s, id, e);
    assert s.calls[i].cancelled && t.calls[i] == s.calls[i];
    var step := if s.calls[i].pushed then Returns(i) else PushFails(i);
    RunOne(t, step);
    steps := [step];
    var u := Leave(t, i);
    assert id in u.calls && !u.calls[id].cancelled && !IsRegistered(u, id);
  }

  /** With an entry still queued, the new one is the second. */
  lemma EarlierEntryDoubles(s: State, id: JoinId, e: Entry) returns (steps: seq<Step>)
    requires Inv(s) && Enabled(s, Joins(id, e)) && e.user !in s.waiters && HasQueued(s.queue, e.user)
    ensures var t := Register(s, id, e); Valid(t, steps) && ClearRun(t, steps) && Twice(Run(t, steps))
  {
    var f :| Parsed(f) in s.queue && f.user == e.user;
    var t := Register(s, id, e);
    RunOne(t, Pushes(id));
    steps := [Pushes(id)];
    var u := Push(t, id);
    assert Parsed(f) in u.queue && u.queue[|s.queue|] == Parsed(e) && f in s.used;
  }

  lemma {:induction false} FirstEntryOfTheNew(q: seq<Raw>, e: Entry)
    requires !HasQueued(q, e.user)
    ensures FirstEntry(q + [Parsed(e)], e.user) == Some(e)
  {
    var r := q + [Parsed(e)];
    if q == [] {
    } else {
      assert r[0] == q[0] && r[1..] == q[1..] + [Parsed(e)];
      assert q[0].Parsed? ==> Parsed(q[0].entry) in q;
      assert forall x :: x in q[1..] ==> x in q;
      FirstEntryOfTheNew(q[1..], e);
    }
  }

  /** With a cancel still to read the queue, it finds and removes the new entry. */
  lemma EarlierCancelRobs(s: State, id: JoinId, e: Entry) returns (steps: seq<Step>)
    requires Inv(s) && Enabled(s, Joins(id, e)) && e.user !in s.waiters
    requires HasScan(s.cancels, e.user) && !HasQueued(s.queue, e.user)
    ensures var t := Register(s, id, e); Valid(t, steps) && ClearRun(t, steps) && Robbed(Run(t, steps))
  {
    var c :| c in s.cancels && s.cancels[c] == Scan(e.user);
    var t := Register(s, id, e);
    var t1 := Push(t, id);
    var t2 := ReadForCancel(t1, c);
    FirstEntryOfTheNew(s.queue, e);
    assert t2.cancels[c] == Remove(e);
    var t3 := Next(t2, CancelRemoves(c));
    RunOne(t2, CancelRemoves(c));
    RunCons(t1, CancelReads(c), [CancelRemoves(c)]);
    RunCons(t, Pushes(id), [CancelReads(c)] + [CancelRemoves(c)]);
    steps := [Pushes(id)] + ([CancelReads(c)] + [CancelRemoves(c)]);
    JoinKeepsTidy(s, id, e);
    PushKeepsTidy(t, id);
    RemoveFirstExactly(t1.queue, e);
    assert Promised(t3) == Promised(s);
    assert forall k :: Holds(Promised(s), e, k) ==> e in s.used;
    assert id in t3.calls && t3.calls[id] == Call(e, true, Waiting, false) && Parsed(e) !in t3.queue;
  }

  /** With a result of the pass on its way, the new call gets it: the room of an entry that is not its own. */
  lemma {:induction false} EarlierResultMisleads(t: State, id: JoinId, user: User) returns (steps: seq<Step>)
    requires WaitersKnown(t.waiters, t.calls) && user in t.waiters && t.waiters[user] == id
    requires t.calls[id].result == Waiting && !Placed(Promised(t), t.calls[id].entry)
    requires HasTell(t.plan, user) && forall u, r :: Tell(u, r) in t.plan ==> r.Matched?
    ensures Valid(t, steps) && ClearRun(t, steps) && Misled(Run(t, steps))
    decreases |t.plan|
  {
    var op, rest := t.plan[0], t.plan[1..];
    assert t.plan == [op] + rest;
    PassStepPromises(t, op, rest);
    var u := Exec(t.(plan := rest), op);
    assert u == Next(t, PassSteps);
    if op.Tell? && op.user == user {
      RunOne(t, PassSteps);
      steps := [PassSteps];
      assert op in t.plan && u.calls[id].result == op.result && !Holds(Promised(u), u.calls[id].entry, op.result.room);
    } else {
      OtherCommandLeavesCall(t, op, rest, id, user);
      var more := EarlierResultMisleads(u, id, user);
      RunCons(t, PassSteps, more);
      steps := [PassSteps] + more;
    }
  }

  lemma OtherCommandLeavesCall(t: State, op: Op, rest: seq<Op>, id: JoinId, user: User)
    requires WaitersKnown(t.waiters, t.calls) && user in t.waiters && t.waiters[user] == id
    requires t.plan == [op] + rest && HasTell(t.plan, user) && !(op.Tell? && op.user == user)
    ensures var u := Exec(t.(plan := rest), op);
      u.plan == rest && HasTell(rest, user) && u.waiters == t.waiters && WaitersKnown(u.waiters, u.calls) &&
      u.calls[id] == t.calls[id]
  {
    var r :| Tell(user, r) in t.plan;
    assert Tell(user, r) in rest;
  }

  /**
   * The condition is exact. From a state the safe runs reach, a user without a waiter, which is all Join looks at,
   * joins safely if and only if nothing of theirs is left: otherwise some continuation, in which nobody else joins,
   * queues them twice, sends them to a room that is not theirs, or loses their waiter or their place.
   */
  lemma JoinIsSafeExactly(s: State, id: JoinId, e: Entry)
    requires Inv(s) && Enabled(s, Joins(id, e)) && e.user !in s.waiters
    ensures SafeFrom(Register(s, id, e)) <==> Clear(s, e.user)
  {
    var t := Register(s, id, e);
    if Clear(s, e.user) {
      ClearJoinKeepsInv(s, id, e);
      forall steps | Valid(t, steps) && ClearRun(t, steps)
        ensures Good(Run(t, steps))
      {
        ClearRunsKeepInv(t, steps);
        InvIsGood(Run(t, steps));
      }
    } else {
      var steps := UnclearJoinGoesWrong(s, id, e);
      assert !Good(Run(t, steps));
    }
  }

  lemma UnclearJoinGoesWrong(s: State, id: JoinId, e: Entry) returns (steps: seq<Step>)
    requires Inv(s) && Enabled(s, Joins(id, e)) && e.user !in s.waiters && !Clear(s, e.user)
    ensures var t := Register(s, id, e); Valid(t, steps) && ClearRun(t, steps) && !Good(Run(t, steps))
  {
    if HasCall(s.calls, e.user) {
      steps := EarlierCallDrops(s, id, e);
    } else if HasQueued(s.queue, e.user) {
      steps := EarlierEntryDoubles(s, id, e);
    } else if HasScan(s.cancels, e.user) {
      steps := EarlierCancelRobs(s, id, e);
    } else {
      var t := Register(s, id, e);
      JoinKeepsTidy(s, id, e);
      assert forall k :: Holds(Promised(s), e, k) ==> e in s.used;
      assert Promised(t) == Promised(s);
      steps := EarlierResultMisleads(t, id, e.user);
    }
  }
}
