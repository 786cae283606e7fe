/** Matchmaking with every command of the requests and of the pass interleaved (service/matchmaking.go). */
module MatchmakingRuns {
  import opened Optional
  import opened Matchmaking

  /** One command of one request, or of the background pass. Calls and cancels are numbered by their requests. */
  datatype Step =
    | Joins(id: JoinId, entry: Entry)   // the locked section of Join
    | Pushes(id: JoinId)
    | PushFails(id: JoinId)             // Join returns the error
    | Returns(id: JoinId)               // the call sees its result or the closed `done`
    | Abandons(id: JoinId)              // the call's context ends, or it times out
    | Cancels(c: int, user: User)       // the locked section of Cancel
    | CancelReads(c: int)
    | CancelRemoves(c: int)
    | PassReads(now: int, refused: set<Entry>)
    | PassSteps

  /** Entries carry the nanosecond they were made, so no two are alike. */
  predicate Enabled(s: State, step: Step) {
    match step
    case Joins(id, e) => id !in s.calls && e !in s.used
    case Pushes(id) => id in s.calls && !s.calls[id].pushed
    case PushFails(id) => id in s.calls && !s.calls[id].pushed
    case Returns(id) => id in s.calls && s.calls[id].pushed && (s.calls[id].result != Waiting || s.calls[id].cancelled)
    case Abandons(id) => id in s.calls && s.calls[id].pushed
    case Cancels(c, _) => c !in s.cancels
    case CancelReads(c) => c in s.cancels && s.cancels[c].Scan?
    case CancelRemoves(c) => c in s.cancels && s.cancels[c].Remove?
    case PassReads(_, _) => s.plan == []
    case PassSteps => s.plan != []
  }

  function ReadQueue(s: State, now: int, refused: set<Entry>): State {
    s.(plan := Plan(|s.rooms|, RoomsFor(s.queue, now), refused),
       turned := s.turned + set e | e in Stale(s.queue, now) && e in refused)
  }

  function ReadForCancel(s: State, c: int): State
    requires c in s.cancels && s.cancels[c].Scan?
  {
    match FirstEntry(s.queue, s.cancels[c].user)
    case None => s.(cancels := s.cancels - {c})
    case Some(e) => s.(cancels := s.cancels[c := Remove(e)])
  }

  function Next(s: State, step: Step): State
    requires Enabled(s, step)
  {
    match step
    case Joins(id, e) => Register(s, id, e)
    case Pushes(id) => Push(s, id)
    case PushFails(id) => Leave(s, id)
    case Returns(id) => Leave(s, id)
    case Abandons(id) => Leave(s, id)
    case Cancels(c, user) => Close(s, user).(cancels := s.cancels[c := Scan(user)])
    case CancelReads(c) => ReadForCancel(s, c)
    case CancelRemoves(c) => s.(queue := RemoveFirst(s.queue, Parsed(s.cancels[c].entry)), cancels := s.cancels - {c})
    case PassReads(now, refused) => ReadQueue(s, now, refused)
    case PassSteps => Exec(s.(plan := s.plan[1..]), s.plan[0])
  }

  ghost predicate Valid(s: State, steps: seq<Step>)
    decreases |steps|
  {
    steps != [] ==> Enabled(s, steps[0]) && Valid(Next(s, steps[0]), steps[1..])
  }

  ghost function Run(s: State, steps: seq<Step>): State
    requires Valid(s, steps)
    decreases |steps|
  {
    if steps == [] then s else Run(Next(s, steps[0]), steps[1..])
  }

  // ----- the rooms a pass has promised -----

  function Opens(plan: seq<Op>): seq<Room> {
    if plan == [] then [] else (if plan[0].Open? then [plan[0].room] else []) + Opens(plan[1..])
  }

  /** The rooms that exist, and those the pass in progress will still open. */
  function Promised(s: State): seq<Room> {
    s.rooms + Opens(s.plan)
  }

  lemma {:induction false} OpensConcat(a: seq<Op>, b: seq<Op>)
    ensures Opens(a + b) == Opens(a) + Opens(b)
  {
    if a == [] {
      assert a + b == b;
    } else {
      assert (a + b)[0] == a[0] && (a + b)[1..] == a[1..] + b;
      OpensConcat(a[1..], b);
    }
  }

  lemma OpensOne(head: seq<Op>, room: Room, tail: seq<Op>)
    requires forall op :: op in head + tail ==> !op.Open?
    ensures Opens(head + ([Open(room)] + tail)) == [room]
  {
    assert forall op :: op in head ==> op in head + tail;
    assert forall op :: op in tail ==> op in head + tail;
    NoOpens(head);
    NoOpens(tail);
    OpensConcat(head, [Open(room)] + tail);
    assert ([Open(room)] + tail)[1..] == tail;
  }

  lemma RoundOpens(n: nat, room: Room, refused: set<Entry>)
    ensures Opens(Round(n, room, refused)) == [room]
  {
    match room
    case Pair(p, q) =>
      var tail := [Tell(p.user, Matched(n, false)), Tell(q.user, Matched(n, false))];
      OpensOne([Lrem(p), Lrem(q)], room, tail);
      assert Round(n, room, refused) == [Lrem(p), Lrem(q)] + ([Open(room)] + tail);
    case VsAI(e, _) =>
      var tail := if e in refused then [] else [Tell(e.user, Matched(n, true))];
      OpensOne([Lrem(e)], room, tail);
      assert Round(n, room, refused) == [Lrem(e)] + ([Open(room)] + tail);
  }

  lemma {:induction false} NoOpens(ops: seq<Op>)
    requires forall op :: op in ops ==> !op.Open?
    ensures Opens(ops) == []
  {
    if ops == [] {
    } else {
      assert ops[0] in ops;
      NoOpens(ops[1..]);
    }
  }

  lemma {:induction false} PlanOpens(n: nat, rooms: seq<Room>, refused: set<Entry>)
    ensures Opens(Plan(n, rooms, refused)) == rooms
    decreases |rooms|
  {
    if rooms == [] {
    } else {
      PlanOpens(n + 1, rooms[1..], refused);
      RoundOpens(n, rooms[0], refused);
      OpensConcat(Round(n, rooms[0], refused), Plan(n + 1, rooms[1..], refused));
      assert rooms == [rooms[0]] + rooms[1..];
    }
  }

  lemma OpensHead(op: Op, rest: seq<Op>)
    ensures Opens([op] + rest) == (if op.Open? then [op.room] else []) + Opens(rest)
  {
    assert ([op] + rest)[0] == op && ([op] + rest)[1..] == rest;
  }

  /** A command of the pass opens a room it promised, or none. */
  lemma PassStepPromises(s: State, op: Op, rest: seq<Op>)
    requires s.plan == [op] + rest
    ensures Exec(s.(plan := rest), op).plan == rest
    ensures Promised(Exec(s.(plan := rest), op)) == Promised(s)
  {
    OpensHead(op, rest);
    var t := Exec(s.(plan := rest), op);
    assert t.rooms == s.rooms + if op.Open? then [op.room] else [];
  }

  /** Only reading the queue promises rooms, and then those of the queue read. */
  lemma StepPromises(s: State, step: Step)
    requires Enabled(s, step)
    ensures Promised(Next(s, step)) ==
      if step.PassReads? then Promised(s) + RoomsFor(s.queue, step.now) else Promised(s)
  {
    match step
    case PassReads(now, refused) =>
      PlanOpens(|s.rooms|, RoomsFor(s.queue, now), refused);
      assert Promised(s) == s.rooms;
    case PassSteps =>
      assert s.plan == [s.plan[0]] + s.plan[1..];
      PassStepPromises(s, s.plan[0], s.plan[1..]);
    case _ =>
      assert Next(s, step).rooms == s.rooms && Next(s, step).plan == s.plan;
  }

  /** The rooms of all the queues read in a run. */
  ghost function Reads(s: State, steps: seq<Step>): seq<Room>
    requires Valid(s, steps)
    decreases |steps|
  {
    if steps == [] then []
    else (if steps[0].PassReads? then RoomsFor(s.queue, steps[0].now) else []) + Reads(Next(s, steps[0]), steps[1..])
  }

  /**
   * First come, first served in every interleaving: whatever joins, leaves and cancels in between, a run opens
   * exactly the rooms of the queues it read, neighbours in order of arrival and then the stale, in that order.
   */
  lemma {:induction false} RoomsAreThoseRead(s: State, steps: seq<Step>)
    requires Valid(s, steps)
    ensures Promised(Run(s, steps)) == Promised(s) + Reads(s, steps)
    decreases |steps|
  {
    if steps == [] {
      assert Promised(s) + [] == Promised(s);
    } else {
      var t := Next(s, steps[0]);
      StepPromises(s, steps[0]);
      RoomsAreThoseRead(t, steps[1..]);
      JoinReads(Promised(s), Promised(t),
                if steps[0].PassReads? then RoomsFor(s.queue, steps[0].now) else [], Reads(t, steps[1..]));
    }
  }

  lemma JoinReads(before: seq<Room>, after: seq<Room>, read: seq<Room>, later: seq<Room>)
    requires after == before + read
    ensures after + later == before + (read + later)
  {
  }

  /**
   * Whatever happens after a pass has read the queue: each entry it found that has waited half a minute is in an AI
   * room on its difficulty that is open or will be, and only those of an earlier read and these are.
   */
  lemma WaitingGetTheirAIRoomExactly(s: State, now: int, refused: set<Entry>, e: Entry)
    requires Enabled(s, PassReads(now, refused))
    ensures HasAIRoom(Promised(Next(s, PassReads(now, refused))), e) <==>
      HasAIRoom(Promised(s), e) || (Parsed(e) in s.queue && now - e.at >= 30_000_000_000)
  {
    var t := Next(s, PassReads(now, refused));
    StepPromises(s, PassReads(now, refused));
    AIRoomsAreForTheWaitingExactly(s.queue, now, e);
    AIRoomConcat(Promised(s), RoomsFor(s.queue, now), e);
  }

  lemma AIRoomConcat(a: seq<Room>, b: seq<Room>, e: Entry)
    ensures HasAIRoom(a + b, e) <==> HasAIRoom(a, e) || HasAIRoom(b, e)
  {
    if HasAIRoom(a, e) {
      var k :| 0 <= k < |a| && IsAIRoomFor(a[k], e);
      assert IsAIRoomFor((a + b)[k], e);
    }
    if HasAIRoom(b, e) {
      var k :| 0 <= k < |b| && IsAIRoomFor(b[k], e);
      assert IsAIRoomFor((a + b)[|a| + k], e);
    }
  }

  lemma PromisedAIRoomsStay(s: State, steps: seq<Step>, e: Entry)
    requires Valid(s, steps) && HasAIRoom(Promised(s), e)
    ensures HasAIRoom(Promised(Run(s, steps)), e)
  {
    RoomsAreThoseRead(s, steps);
    AIRoomConcat(Promised(s), Reads(s, steps), e);
  }

  // ----- order of arrival -----

  /** The entries a run pushes, in order. */
  ghost function Pushed(s: State, steps: seq<Step>): seq<Raw>
    requires Valid(s, steps)
    decreases |steps|
  {
    if steps == [] then []
    else
      (if steps[0].Pushes? then [Parsed(s.calls[steps[0].id].entry)] else []) + Pushed(Next(s, steps[0]), steps[1..])
  }

  /** What is left of b, in the order of b. */
  ghost predicate LeftOf(a: seq<Raw>, b: seq<Raw>) {
    exists at: seq<nat> :: LeftAt(a, b, at)
  }

  ghost predicate LeftAt(a: seq<Raw>, b: seq<Raw>, at: seq<nat>) {
    |at| == |a| && Rising(at) && forall k :: 0 <= k < |at| ==> at[k] < |b| && b[at[k]] == a[k]
  }

  lemma {:induction false} RemoveFirstCuts(q: seq<Raw>, raw: Raw) returns (i: nat)
    ensures i <= |q| && (i < |q| ==> q[i] == raw) && (forall j :: 0 <= j < i ==> q[j] != raw)
    ensures RemoveFirst(q, raw) == if i < |q| then q[..i] + q[i + 1..] else q
  {
    if q == [] || q[0] == raw {
      i := 0;
    } else {
      var k := RemoveFirstCuts(q[1..], raw);
      i := k + 1;
    }
  }

  lemma CutKeepsOrder(q: seq<Raw>, b: seq<Raw>, at: seq<nat>, i: nat)
    requires LeftAt(q, b, at) && i < |q|
    ensures LeftAt(q[..i] + q[i + 1..], b, at[..i] + at[i + 1..])
  {
    var r, rest := q[..i] + q[i + 1..], at[..i] + at[i + 1..];
    forall k | 0 <= k < |rest|
      ensures rest[k] < |b| && b[rest[k]] == r[k] && rest[k] == at[if k < i then k else k + 1]
    {
    }
  }

  lemma RemovalKeepsOrder(q: seq<Raw>, b: seq<Raw>, raw: Raw)
    requires LeftOf(q, b)
    ensures LeftOf(RemoveFirst(q, raw), b)
  {
    var at: seq<nat> :| LeftAt(q, b, at);
    var i := RemoveFirstCuts(q, raw);
    if i < |q| {
      CutKeepsOrder(q, b, at, i);
    }
  }

  lemma PushKeepsOrder(q: seq<Raw>, b: seq<Raw>, raw: Raw)
    requires LeftOf(q, b)
    ensures LeftOf(q + [raw], b + [raw])
  {
    var at: seq<nat> :| LeftAt(q, b, at);
    assert LeftAt(q + [raw], b + [raw], at + [|b|]);
  }

  lemma StepKeepsOrder(s: State, step: Step, b: seq<Raw>)
    requires Enabled(s, step) && LeftOf(s.queue, b)
    ensures LeftOf(Next(s, step).queue, if step.Pushes? then b + [Parsed(s.calls[step.id].entry)] else b)
  {
    match step
    case Pushes(id) => PushKeepsOrder(s.queue, b, Parsed(s.calls[id].entry));
    case CancelRemoves(c) => RemovalKeepsOrder(s.queue, b, Parsed(s.cancels[c].entry));
    case PassSteps =>
      if s.plan[0].Lrem? {
        RemovalKeepsOrder(s.queue, b, Parsed(s.plan[0].entry));
      }
    case _ =>
  }

  /** In every interleaving the queue is what is left of the pushes, in their order. */
  lemma {:induction false} QueueIsInOrderOfArrival(s: State, steps: seq<Step>, b: seq<Raw>)
    requires Valid(s, steps) && LeftOf(s.queue, b)
    ensures LeftOf(Run(s, steps).queue, b + Pushed(s, steps))
    decreases |steps|
  {
    if steps == [] {
      assert b + [] == b;
    } else {
      var t, rest := Next(s, steps[0]), steps[1..];
      var news := if steps[0].Pushes? then [Parsed(s.calls[steps[0].id].entry)] else [];
      StepKeepsOrder(s, steps[0], b);
      assert b + [] == b;
      QueueIsInOrderOfArrival(t, rest, b + news);
      assert Pushed(s, steps) == news + Pushed(t, rest);
      assert (b + news) + Pushed(t, rest) == b + (news + Pushed(t, rest));
    }
  }

  // ----- at most one result a call -----

  /** The call is over. */
  predicate Ends(step: Step, id: JoinId) {
    step == Returns(id) || step == Abandons(id) || step == PushFails(id)
  }

  lemma StepKeepsResult(s: State, step: Step, id: JoinId)
    requires Enabled(s, step) && id in s.calls && s.calls[id].result != Waiting
    ensures var t := Next(s, step);
      if id in t.calls then t.calls[id].result == s.calls[id].result && t.calls[id].entry == s.calls[id].entry
      else Ends(step, id)
  {
  }

  /** From any state and in every run, a call that was sent a result is never sent another: it has it, or is over. */
  lemma {:induction false} AtMostOneResult(s: State, steps: seq<Step>, id: JoinId)
    requires Valid(s, steps) && id in s.calls && s.calls[id].result != Waiting
    requires forall step :: step in steps ==> !Ends(step, id)
    ensures id in Run(s, steps).calls
    ensures Run(s, steps).calls[id].result == s.calls[id].result && Run(s, steps).calls[id].entry == s.calls[id].entry
    decreases |steps|
  {
    if steps == [] {
    } else {
      assert steps[0] in steps;
      StepKeepsResult(s, steps[0], id);
      AtMostOneResult(Next(s, steps[0]), steps[1..], id);
    }
  }

  // ----- what every interleaving keeps -----

  ghost predicate Holds(rooms: seq<Room>, e: Entry, k: int) {
    0 <= k < |rooms| && e in Players(rooms[k])
  }

  ghost predicate Placed(rooms: seq<Room>, e: Entry) {
    exists k :: Holds(rooms, e, k)
  }

  ghost predicate NoTwins(q: seq<Raw>) {
    forall i, j :: 0 <= i < j < |q| && q[i].Parsed? ==> q[i] != q[j]
  }

  ghost predicate QueueKnown(q: seq<Raw>, used: set<Entry>) {
    forall e :: Parsed(e) in q ==> e in used
  }

  ghost predicate CallsKnown(calls: map<JoinId, Call>, used: set<Entry>) {
    && (forall id :: id in calls ==> calls[id].entry in used)
    && (forall i, j :: i in calls && j in calls && i != j ==> calls[i].entry != calls[j].entry)
  }

  ghost predicate CancelsKnown(cancels: map<int, Cancelling>, used: set<Entry>) {
    forall c :: c in cancels && cancels[c].Remove? ==> cancels[c].entry in used
  }

  /** An entry is placed in one room, and once. */
  ghost predicate OneRoomEach(rooms: seq<Room>, used: set<Entry>) {
    && (forall e, i, j :: Holds(rooms, e, i) && Holds(rooms, e, j) ==> i == j)
    && (forall k :: 0 <= k < |rooms| && rooms[k].Pair? ==> rooms[k].first != rooms[k].second)
    && (forall e, k :: Holds(rooms, e, k) ==> e in used)
  }

  /** A placed entry still in the queue is about to be removed; the pass removes none but placed ones. */
  ghost predicate RemovesPlaced(q: seq<Raw>, plan: seq<Op>, rooms: seq<Room>) {
    && (forall e :: Parsed(e) in q && Placed(rooms, e) ==> Lrem(e) in plan)
    && (forall e :: Lrem(e) in plan ==> Placed(rooms, e))
  }

  ghost predicate WaitersKnown(waiters: map<User, JoinId>, calls: map<JoinId, Call>) {
    forall u :: u in waiters ==>
      waiters[u] in calls && calls[waiters[u]].entry.user == u && !calls[waiters[u]].cancelled
  }

  ghost predicate UnpushedIsNowhere(q: seq<Raw>, calls: map<JoinId, Call>, rooms: seq<Room>) {
    forall id :: id in calls && !calls[id].pushed ==> Parsed(calls[id].entry) !in q && !Placed(rooms, calls[id].entry)
  }

  ghost predicate Tidy(s: State) {
    var rooms := Promised(s);
    && NoTwins(s.queue)
    && QueueKnown(s.queue, s.used) && CallsKnown(s.calls, s.used) && CancelsKnown(s.cancels, s.used)
    && OneRoomEach(rooms, s.used)
    && RemovesPlaced(s.queue, s.plan, rooms)
    && WaitersKnown(s.waiters, s.calls)
    && UnpushedIsNowhere(s.queue, s.calls, rooms)
  }

  /** Without twins, removing by value removes that one element. */
  lemma {:induction false} RemoveFirstExactly(q: seq<Raw>, e: Entry)
    requires NoTwins(q)
    ensures NoTwins(RemoveFirst(q, Parsed(e)))
    ensures forall x :: x in RemoveFirst(q, Parsed(e)) <==> x in q && x != Parsed(e)
  {
    if q == [] {
    } else {
      assert q == [q[0]] + q[1..];
      assert forall i :: 0 < i < |q| ==> q[i] == q[1..][i - 1];
      if q[0] == Parsed(e) {
        assert forall x :: x in q[1..] ==> x != Parsed(e);
      } else {
        RemoveFirstExactly(q[1..], e);
        var r := RemoveFirst(q[1..], Parsed(e));
        assert RemoveFirst(q, Parsed(e)) == [q[0]] + r;
        assert forall j :: 0 <= j < |r| ==> r[j] in r;
      }
    }
  }

  // ----- what a plan does -----

  ghost predicate Telling(plan: seq<Op>, user: User, k: int) {
    k >= 0 && (Tell(user, Matched(k, true)) in plan || Tell(user, Matched(k, false)) in plan)
  }

  /** The entry whose user Tell addresses. */
  ghost predicate HasPlayerOf(room: Room, user: User) {
    exists e :: e in Players(room) && e.user == user
  }

  lemma RoundRemoves(n: nat, room: Room, refused: set<Entry>, e: Entry)
    ensures Lrem(e) in Round(n, room, refused) <==> e in Players(room)
  {
    match room
    case Pair(p, q) =>
      assert Round(n, room, refused)[0] == Lrem(p) && Round(n, room, refused)[1] == Lrem(q);
    case VsAI(player, _) =>
      assert Round(n, room, refused)[0] == Lrem(player);
  }

  lemma RoundTells(n: nat, room: Room, refused: set<Entry>, u: User, r: Result)
    requires Tell(u, r) in Round(n, room, refused)
    ensures r.Matched? && r.room == n && HasPlayerOf(room, u)
  {
    match room
    case Pair(p, q) => assert p in Players(room) && q in Players(room);
    case VsAI(e, _) => assert e in Players(room);
  }

  lemma RoundTellsAll(n: nat, room: Room, refused: set<Entry>, e: Entry)
    requires e in Players(room) && (room.VsAI? ==> e !in refused)
    ensures Telling(Round(n, room, refused), e.user, n)
  {
    match room
    case Pair(p, q) =>
      assert Round(n, room, refused)[3] == Tell(p.user, Matched(n, false));
      assert Round(n, room, refused)[4] == Tell(q.user, Matched(n, false));
    case VsAI(player, _) =>
      assert Round(n, room, refused)[2] == Tell(e.user, Matched(n, true));
  }

  ghost predicate InRound(n: nat, rooms: seq<Room>, refused: set<Entry>, op: Op, k: int) {
    0 <= k < |rooms| && op in Round(n + k, rooms[k], refused)
  }

  lemma InLaterRound(n: nat, rooms: seq<Room>, refused: set<Entry>, op: Op, k: int)
    requires rooms != [] && k > 0
    ensures InRound(n, rooms, refused, op, k) <==> InRound(n + 1, rooms[1..], refused, op, k - 1)
  {
  }

  /** Every command of a plan belongs to the round of one of its rooms. */
  lemma {:induction false} PlanMember(n: nat, rooms: seq<Room>, refused: set<Entry>, op: Op)
    ensures op in Plan(n, rooms, refused) <==> exists k :: InRound(n, rooms, refused, op, k)
    decreases |rooms|
  {
    if rooms == [] {
    } else {
      PlanMember(n + 1, rooms[1..], refused, op);
      if op in Plan(n + 1, rooms[1..], refused) {
        var k :| InRound(n + 1, rooms[1..], refused, op, k);
        InLaterRound(n, rooms, refused, op, k + 1);
      }
      if op in Round(n, rooms[0], refused) {
        assert InRound(n, rooms, refused, op, 0);
      }
      if k :| InRound(n, rooms, refused, op, k) {
        if k > 0 {
          InLaterRound(n, rooms, refused, op, k);
        }
      }
    }
  }

  lemma PlanRemoves(n: nat, rooms: seq<Room>, refused: set<Entry>, e: Entry)
    ensures Lrem(e) in Plan(n, rooms, refused) <==> Placed(rooms, e)
  {
    PlanMember(n, rooms, refused, Lrem(e));
    forall k | 0 <= k < |rooms|
      ensures InRound(n, rooms, refused, Lrem(e), k) <==> Holds(rooms, e, k)
    {
      RoundRemoves(n + k, rooms[k], refused, e);
    }
  }

  lemma InRoundTells(n: nat, rooms: seq<Room>, refused: set<Entry>, u: User, r: Result, k: int)
    requires InRound(n, rooms, refused, Tell(u, r), k)
    ensures r.Matched? && r.room == n + k && HasPlayerOf(rooms[k], u)
  {
    RoundTells(n + k, rooms[k], refused, u, r);
  }

  lemma PlanTells(n: nat, rooms: seq<Room>, refused: set<Entry>, u: User, r: Result)
    requires Tell(u, r) in Plan(n, rooms, refused)
    ensures r.Matched? && n <= r.room < n + |rooms| && HasPlayerOf(rooms[r.room - n], u)
  {
    PlanMember(n, rooms, refused, Tell(u, r));
    var k :| InRound(n, rooms, refused, Tell(u, r), k);
    InRoundTells(n, rooms, refused, u, r, k);
    assert r.room - n == k;
  }

  lemma PlanTellsAll(n: nat, rooms: seq<Room>, refused: set<Entry>, e: Entry, k: nat)
    requires Holds(rooms, e, k) && (rooms[k].VsAI? ==> e !in refused)
    ensures Telling(Plan(n, rooms, refused), e.user, n + k)
  {
    RoundTellsAll(n + k, rooms[k], refused, e);
    var tellAI, tellHuman := Tell(e.user, Matched(n + k, true)), Tell(e.user, Matched(n + k, false));
    PlanMember(n, rooms, refused, tellAI);
    PlanMember(n, rooms, refused, tellHuman);
    assert InRound(n, rooms, refused, tellAI, k) || InRound(n, rooms, refused, tellHuman, k);
  }

  // ----- the rooms of a queue -----

  lemma {:induction false} TimesMember(es: seq<Entry>, e: Entry)
    ensures Times(es, Parsed(e)) > 0 <==> e in es
  {
    if es == [] {
    } else {
      TimesMember(es[1..], e);
      assert es == [es[0]] + es[1..];
    }
  }

  lemma {:induction false} PlacedIsAPlayer(rooms: seq<Room>, e: Entry)
    ensures e in AllPlayers(rooms) <==> Placed(rooms, e)
  {
    if rooms == [] {
    } else {
      var rest := rooms[1..];
      PlacedIsAPlayer(rest, e);
      if Placed(rest, e) {
        var k :| Holds(rest, e, k);
        assert Holds(rooms, e, k + 1);
      }
      if e in Players(rooms[0]) {
        assert Holds(rooms, e, 0);
      }
      if k :| Holds(rooms, e, k) {
        assert k > 0 ==> Holds(rest, e, k - 1);
      }
    }
  }

  /** A player of the first room that occurs once in a list of rooms is in no other, and once in that one. */
  lemma FirstRoomOnly(rooms: seq<Room>, e: Entry)
    requires rooms != [] && Times(AllPlayers(rooms), Parsed(e)) <= 1 && e in Players(rooms[0])
    ensures !Placed(rooms[1..], e)
    ensures rooms[0].Pair? ==> rooms[0].first != rooms[0].second
  {
    TimesConcat(Players(rooms[0]), AllPlayers(rooms[1..]), Parsed(e));
    TimesMember(Players(rooms[0]), e);
    TimesMember(AllPlayers(rooms[1..]), e);
    PlacedIsAPlayer(rooms[1..], e);
    if rooms[0].Pair? {
      OnceInAPair(rooms[0].first, rooms[0].second, e);
    }
  }

  lemma OnceInAPair(p: Entry, q: Entry, e: Entry)
    requires e in [p, q] && Times([p, q], Parsed(e)) <= 1
    ensures p != q
  {
    TimesConcat([p], [q], Parsed(e));
    TimesMember([p], e);
    TimesMember([q], e);
    assert [p] + [q] == [p, q];
  }

  /** When no player occurs twice in a list of rooms, each is in one room, and once. */
  lemma {:induction false} DistinctPlayers(rooms: seq<Room>, e: Entry, i: nat, j: nat)
    requires Times(AllPlayers(rooms), Parsed(e)) <= 1
    requires Holds(rooms, e, i) && Holds(rooms, e, j)
    ensures i == j && (rooms[i].Pair? ==> rooms[i].first != rooms[i].second)
    decreases |rooms|
  {
    var rest := rooms[1..];
    if i == 0 || j == 0 {
      FirstRoomOnly(rooms, e);
      assert i > 0 ==> Holds(rest, e, i - 1);
      assert j > 0 ==> Holds(rest, e, j - 1);
    } else {
      TimesConcat(Players(rooms[0]), AllPlayers(rest), Parsed(e));
      assert Holds(rest, e, i - 1) && Holds(rest, e, j - 1);
      DistinctPlayers(rest, e, i - 1, j - 1);
    }
  }

  lemma {:induction false} NoTwinsCount(q: seq<Raw>, e: Entry)
    requires NoTwins(q)
    ensures multiset(q)[Parsed(e)] <= 1
  {
    if q == [] {
    } else {
      var init, raw := q[..|q| - 1], q[|q| - 1];
      assert q == init + [raw];
      NoTwinsCount(init, e);
      assert raw == Parsed(e) ==> raw !in init;
    }
  }

  /** Of a queue without twins, each entry gets at most one place, and only queued ones get any. */
  lemma RoomsForPlaces(q: seq<Raw>, now: int, e: Entry)
    requires NoTwins(q)
    ensures Times(AllPlayers(RoomsFor(q, now)), Parsed(e)) <= 1
    ensures Placed(RoomsFor(q, now), e) ==> Parsed(e) in q
  {
    PlayersOfThePass(q, now, Parsed(e));
    NoTwinsCount(q, e);
    PlacedIsAPlayer(RoomsFor(q, now), e);
    TimesMember(AllPlayers(RoomsFor(q, now)), e);
  }

  lemma {:induction false} PairsArePairs(young: seq<Entry>)
    ensures forall room :: room in Pairs(young) ==> room.Pair?
    decreases |young|
  {
    if |young| < 2 {
    } else {
      PairsArePairs(young[2..]);
    }
  }

  lemma {:induction false} FallbacksAreStale(stale: seq<Entry>)
    ensures forall room :: room in Fallbacks(stale) ==> room.VsAI? && room.player in stale
  {
    if stale == [] {
    } else {
      FallbacksAreStale(stale[1..]);
      assert stale == [stale[0]] + stale[1..];
    }
  }

  lemma AIRoomsAreForTheStale(q: seq<Raw>, now: int, e: Entry, k: int)
    requires Holds(RoomsFor(q, now), e, k) && RoomsFor(q, now)[k].VsAI?
    ensures e in Stale(q, now)
  {
    PairsArePairs(Young(q, now));
    FallbacksAreStale(Stale(q, now));
    var room := RoomsFor(q, now)[k];
    assert room in Pairs(Young(q, now)) || room in Fallbacks(Stale(q, now));
  }

  // ----- tidiness of every step -----

  lemma HoldsConcat(a: seq<Room>, b: seq<Room>, e: Entry, k: int)
    ensures Holds(a + b, e, k) <==> Holds(a, e, k) || Holds(b, e, k - |a|)
  {
  }

  lemma PlacedConcat(a: seq<Room>, b: seq<Room>, e: Entry)
    ensures Placed(a + b, e) <==> Placed(a, e) || Placed(b, e)
  {
    if Placed(a + b, e) {
      var k :| Holds(a + b, e, k);
      HoldsConcat(a, b, e, k);
    }
    if Placed(a, e) {
      var k :| Holds(a, e, k);
      assert Holds(a + b, e, k);
    }
    if Placed(b, e) {
      var k :| Holds(b, e, k);
      HoldsConcat(a, b, e, k + |a|);
    }
  }

  /** New rooms for queued entries none of which has one. */
  lemma NewRoomsAreOneEach(rooms: seq<Room>, q: seq<Raw>, now: int, used: set<Entry>)
    requires OneRoomEach(rooms, used) && NoTwins(q) && QueueKnown(q, used)
    requires forall e :: Parsed(e) in q ==> !Placed(rooms, e)
    ensures OneRoomEach(rooms + RoomsFor(q, now), used)
  {
    var made := RoomsFor(q, now);
    forall e, i, j | Holds(rooms + made, e, i) && Holds(rooms + made, e, j)
      ensures i == j && e in used
    {
      OneOfTheNewRooms(rooms, q, now, used, e, i, j);
    }
    forall k | 0 <= k < |rooms + made| && (rooms + made)[k].Pair?
      ensures (rooms + made)[k].first != (rooms + made)[k].second
    {
      var e := (rooms + made)[k].first;
      if k >= |rooms| {
        assert Holds(made, e, k - |rooms|);
        RoomsForPlaces(q, now, e);
        DistinctPlayers(made, e, k - |rooms|, k - |rooms|);
      }
    }
  }

  lemma OneOfTheNewRooms(rooms: seq<Room>, q: seq<Raw>, now: int, used: set<Entry>, e: Entry, i: int, j: int)
    requires OneRoomEach(rooms, used) && NoTwins(q) && QueueKnown(q, used)
    requires forall x :: Parsed(x) in q ==> !Placed(rooms, x)
    requires Holds(rooms + RoomsFor(q, now), e, i) && Holds(rooms + RoomsFor(q, now), e, j)
    ensures i == j && e in used
  {
    var n, fromQueue := |rooms|, RoomsFor(q, now);
    HoldsConcat(rooms, fromQueue, e, i);
    HoldsConcat(rooms, fromQueue, e, j);
    RoomsForPlaces(q, now, e);
    if Holds(fromQueue, e, i - n) || Holds(fromQueue, e, j - n) {
      assert Placed(fromQueue, e);
      assert !Placed(rooms, e);
      assert !Holds(rooms, e, i) && !Holds(rooms, e, j);
      DistinctPlayers(fromQueue, e, i - n, j - n);
    }
  }

  lemma ReadKeepsTidy(s: State, now: int, refused: set<Entry>)
    requires Tidy(s) && s.plan == []
    ensures Tidy(ReadQueue(s, now, refused))
  {
    var made := RoomsFor(s.queue, now);
    var t := ReadQueue(s, now, refused);
    PlanOpens(|s.rooms|, made, refused);
    assert Promised(s) == s.rooms && Promised(t) == s.rooms + made;
    forall e | Parsed(e) in s.queue
      ensures !Placed(s.rooms, e)
    {
      assert Placed(Promised(s), e) ==> Lrem(e) in s.plan;
    }
    NewRoomsAreOneEach(s.rooms, s.queue, now, s.used);
    forall e
      ensures Lrem(e) in t.plan <==> Placed(made, e)
      ensures Placed(s.rooms + made, e) <==> Placed(s.rooms, e) || Placed(made, e)
      ensures Placed(made, e) ==> Parsed(e) in s.queue
    {
      PlanRemoves(|s.rooms|, made, refused, e);
      PlacedConcat(s.rooms, made, e);
      RoomsForPlaces(s.queue, now, e);
    }
  }

  lemma PassStepKeepsTidy(s: State, op: Op, rest: seq<Op>)
    requires Tidy(s) && s.plan == [op] + rest
    ensures Tidy(Exec(s.(plan := rest), op))
  {
    PassStepPromises(s, op, rest);
    match op
    case Lrem(e) =>
      RemoveFirstExactly(s.queue, e);
    case Open(room) =>
    case Tell(user, result) =>
  }

  lemma CancelRemoveKeepsTidy(s: State, c: int)
    requires Tidy(s) && c in s.cancels && s.cancels[c].Remove?
    ensures Tidy(Next(s, CancelRemoves(c)))
  {
    RemoveFirstExactly(s.queue, s.cancels[c].entry);
  }

  lemma {:induction false} FirstEntryIsQueued(q: seq<Raw>, user: User)
    ensures var first := FirstEntry(q, user);
      && (first.Some? ==> Parsed(first.value) in q && first.value.user == user)
      && (first.None? ==> forall e :: Parsed(e) in q ==> e.user != user)
  {
    if q == [] {
    } else {
      FirstEntryIsQueued(q[1..], user);
      assert q == [q[0]] + q[1..];
    }
  }

  lemma PushKeepsTidy(s: State, id: JoinId)
    requires Tidy(s) && id in s.calls && !s.calls[id].pushed
    ensures Tidy(Push(s, id))
  {
    var e := s.calls[id].entry;
    var q := s.queue + [Parsed(e)];
    assert forall x :: x in q <==> x in s.queue || x == Parsed(e);
    assert forall i :: 0 <= i < |s.queue| ==> q[i] == s.queue[i] && q[i] in s.queue;
    assert NoTwins(q);
  }

  lemma CancelReadKeepsTidy(s: State, c: int)
    requires Tidy(s) && c in s.cancels && s.cancels[c].Scan?
    ensures Tidy(ReadForCancel(s, c))
  {
    FirstEntryIsQueued(s.queue, s.cancels[c].user);
  }

  lemma LeaveKeepsTidy(s: State, id: JoinId)
    requires Tidy(s) && id in s.calls
    ensures Tidy(Leave(s, id))
  {
  }

  lemma JoinKeepsTidy(s: State, id: JoinId, e: Entry)
    requires Tidy(s) && id !in s.calls && e !in s.used
    ensures Tidy(Register(s, id, e))
  {
  }

  lemma CloseKeepsTidy(s: State, c: int, user: User)
    requires Tidy(s)
    ensures Tidy(Close(s, user).(cancels := s.cancels[c := Scan(user)]))
  {
  }

  lemma StepKeepsTidy(s: State, step: Step)
    requires Tidy(s) && Enabled(s, step)
    ensures Tidy(Next(s, step))
  {
    match step
    case PassReads(now, refused) => ReadKeepsTidy(s, now, refused);
    case PassSteps =>
      assert s.plan == [s.plan[0]] + s.plan[1..];
      PassStepKeepsTidy(s, s.plan[0], s.plan[1..]);
    case Pushes(id) => PushKeepsTidy(s, id);
    case CancelReads(c) => CancelReadKeepsTidy(s, c);
    case CancelRemoves(c) => CancelRemoveKeepsTidy(s, c);
    case Cancels(c, user) => CloseKeepsTidy(s, c, user);
    case PushFails(id) => LeaveKeepsTidy(s, id);
    case Returns(id) => LeaveKeepsTidy(s, id);
    case Abandons(id) => LeaveKeepsTidy(s, id);
    case Joins(id, e) => JoinKeepsTidy(s, id, e);
  }

  lemma {:induction false} EveryRunIsTidy(s: State, steps: seq<Step>)
    requires Tidy(s) && Valid(s, steps)
    ensures Tidy(Run(s, steps))
    decreases |steps|
  {
    if steps == [] {
    } else {
      StepKeepsTidy(s, steps[0]);
      EveryRunIsTidy(Next(s, steps[0]), steps[1..]);
    }
  }

  /** In every interleaving an entry gets at most one room, and only one place in it. */
  lemma EveryEntryGetsOneRoom(steps: seq<Step>, e: Entry, i: int, j: int)
    requires Valid(IDLE, steps)
    ensures var rooms := Run(IDLE, steps).rooms;
      Holds(rooms, e, i) && Holds(rooms, e, j) ==> i == j && (rooms[i].Pair? ==> rooms[i].first != rooms[i].second)
  {
    assert Tidy(IDLE);
    EveryRunIsTidy(IDLE, steps);
    var t := Run(IDLE, steps);
    HoldsConcat(t.rooms, Opens(t.plan), e, i);
    HoldsConcat(t.rooms, Opens(t.plan), e, j);
  }

  // ----- undisturbed, the commands make up the service's methods -----

  function PassAlone(n: nat): seq<Step> {
    seq(n, _ => PassSteps)
  }

  lemma {:induction false} DrainedPlan(s: State)
    ensures Valid(s, PassAlone(|s.plan|))
    ensures Run(s, PassAlone(|s.plan|)) == RunOps(s.(plan := []), s.plan)
    decreases |s.plan|
  {
    if s.plan == [] {
      assert s.(plan := []) == s;
    } else {
      var t := Next(s, PassSteps);
      assert PassAlone(|s.plan|)[1..] == PassAlone(|t.plan|);
      assert t.(plan := []) == Exec(s.(plan := []), s.plan[0]);
      DrainedPlan(t);
    }
  }

  /** Read, then every command with nothing in between: what processQueue does alone. */
  lemma UndisturbedPass(s: State, now: int, refused: set<Entry>)
    requires s.plan == []
    ensures var t := ReadQueue(s, now, refused);
      && Valid(t, PassAlone(|t.plan|))
      && Run(t, PassAlone(|t.plan|)) == Pass(s.(turned := t.turned), now, refused)
  {
    var t := ReadQueue(s, now, refused);
    DrainedPlan(t);
    assert t.(plan := []) == s.(turned := t.turned);
  }

  lemma UndisturbedCancel(s: State, c: int, user: User)
    requires c !in s.cancels
    ensures var t := Next(Next(s, Cancels(c, user)), CancelReads(c));
      CancelAlone(s, user) == if FirstEntry(s.queue, user).Some? then Next(t, CancelRemoves(c)) else t
  {
    var t := Next(s, Cancels(c, user));
    assert t.cancels - {c} == s.cancels;
    assert FirstEntry(s.queue, user).Some? ==> Next(t, CancelReads(c)).cancels - {c} == s.cancels;
  }
}
