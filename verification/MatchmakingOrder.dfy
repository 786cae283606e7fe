/** The order of a round's commands: off the queue, then a room, then the news (service/matchmaking.go). */
module MatchmakingOrder {
  import opened Optional
  import opened Matchmaking
  import opened MatchmakingRuns

  /** The news is of room k of these, says rightly whether an AI is in it, and goes to one of its players. */
  predicate IsTrueOf(rooms: seq<Room>, user: User, r: Result) {
    r.Matched? && r.room < |rooms| && (r.isAI <==> rooms[r.room].VsAI?)
    && exists e :: e in Players(rooms[r.room]) && e.user == user
  }

  /** Every command finds what it needs done: news is of open rooms, and a room opens once its players are off. */
  predicate InItsOrder(rooms: seq<Room>, plan: seq<Op>)
    decreases |plan|
  {
    if plan == [] then true
    else Finds(rooms, plan[0], plan[1..]) && InItsOrder(After(rooms, plan[0]), plan[1..])
  }

  /** What one command needs done before. */
  predicate Finds(rooms: seq<Room>, op: Op, rest: seq<Op>) {
    match op
    case Lrem(_) => true
    case Open(room) => forall e :: e in Players(room) ==> Lrem(e) !in rest
    case Tell(user, r) => IsTrueOf(rooms, user, r)
  }

  function After(rooms: seq<Room>, op: Op): seq<Room> {
    if op.Open? then rooms + [op.room] else rooms
  }

  lemma {:induction false} MoreRoomsKeepTruth(a: seq<Room>, b: seq<Room>, user: User, r: Result)
    requires IsTrueOf(a, user, r) && a <= b
    ensures IsTrueOf(b, user, r)
  {
    assert a[r.room] == b[r.room];
  }

  /** One command in front. */
  lemma OrderCons(rooms: seq<Room>, op: Op, rest: seq<Op>)
    ensures InItsOrder(rooms, [op] + rest) <==> Finds(rooms, op, rest) && InItsOrder(After(rooms, op), rest)
  {
    assert ([op] + rest)[0] == op && ([op] + rest)[1..] == rest;
  }

  /** Opening a room, once its players are off the queue, and telling what is true of it. */
  lemma OpeningInItsOrder(rooms: seq<Room>, room: Room, news: seq<Op>)
    requires InItsOrder(rooms + [room], news) && forall e :: e in Players(room) ==> Lrem(e) !in news
    ensures InItsOrder(rooms, [Open(room)] + news)
  {
    OrderCons(rooms, Open(room), news);
  }

  lemma NewsInItsOrder(rooms: seq<Room>, user: User, r: Result, rest: seq<Op>)
    requires InItsOrder(rooms, rest) && IsTrueOf(rooms, user, r)
    ensures InItsOrder(rooms, [Tell(user, r)] + rest)
  {
    OrderCons(rooms, Tell(user, r), rest);
  }

  lemma RemovalInItsOrder(rooms: seq<Room>, e: Entry, rest: seq<Op>)
    requires InItsOrder(rooms, rest)
    ensures InItsOrder(rooms, [Lrem(e)] + rest)
  {
    OrderCons(rooms, Lrem(e), rest);
  }

  lemma PairInItsOrder(rooms: seq<Room>, p: Entry, q: Entry, refused: set<Entry>, rest: seq<Op>)
    requires InItsOrder(rooms + [Pair(p, q)], rest) && Lrem(p) !in rest && Lrem(q) !in rest
    ensures InItsOrder(rooms, Round(|rooms|, Pair(p, q), refused) + rest)
  {
    var n := |rooms|;
    var tellP, tellQ := Tell(p.user, Matched(n, false)), Tell(q.user, Matched(n, false));
    PairIsTold(rooms, p, q, tellP, tellQ, rest);
    OpeningInItsOrder(rooms, Pair(p, q), [tellP] + ([tellQ] + rest));
    RemovalInItsOrder(rooms, q, [Open(Pair(p, q))] + ([tellP] + ([tellQ] + rest)));
    RemovalInItsOrder(rooms, p, [Lrem(q)] + ([Open(Pair(p, q))] + ([tellP] + ([tellQ] + rest))));
    FiveCommands(Lrem(p), Lrem(q), Open(Pair(p, q)), tellP, tellQ, rest);
  }

  lemma FiveCommands(a: Op, b: Op, c: Op, d: Op, e: Op, rest: seq<Op>)
    ensures [a, b, c, d, e] + rest == [a] + ([b] + ([c] + ([d] + ([e] + rest))))
  {
  }

  lemma PairIsTold(rooms: seq<Room>, p: Entry, q: Entry, tellP: Op, tellQ: Op, rest: seq<Op>)
    requires InItsOrder(rooms + [Pair(p, q)], rest)
    requires tellP == Tell(p.user, Matched(|rooms|, false)) && tellQ == Tell(q.user, Matched(|rooms|, false))
    ensures InItsOrder(rooms + [Pair(p, q)], [tellP] + ([tellQ] + rest))
  {
    var after := rooms + [Pair(p, q)];
    assert p in Players(after[|rooms|]) && q in Players(after[|rooms|]);
    NewsInItsOrder(after, q.user, tellQ.result, rest);
    NewsInItsOrder(after, p.user, tellP.result, [tellQ] + rest);
  }

  /** A round in front of a plan that removes none of its players again. */
  lemma RoundInItsOrder(rooms: seq<Room>, room: Room, refused: set<Entry>, rest: seq<Op>)
    requires InItsOrder(rooms + [room], rest) && forall e :: e in Players(room) ==> Lrem(e) !in rest
    ensures InItsOrder(rooms, Round(|rooms|, room, refused) + rest)
  {
    match room
    case Pair(p, q) => PairInItsOrder(rooms, p, q, refused, rest);
    case VsAI(e, _) =>
      var after, n := rooms + [room], |rooms|;
      assert e in Players(after[n]);
      NewsInItsOrder(after, e.user, Matched(n, true), rest);
      var news := if e in refused then rest else [Tell(e.user, Matched(n, true))] + rest;
      OpeningInItsOrder(rooms, room, news);
      RemovalInItsOrder(rooms, e, [Open(room)] + news);
      assert Round(n, room, refused) + rest == [Lrem(e)] + ([Open(room)] + news);
  }

  /** Nobody has two places in these rooms. */
  ghost predicate PlacesOnce(rooms: seq<Room>) {
    forall e, i, j :: Holds(rooms, e, i) && Holds(rooms, e, j) ==> i == j
  }

  lemma {:induction false} PlanInItsOrder(rooms: seq<Room>, made: seq<Room>, refused: set<Entry>)
    requires PlacesOnce(made)
    ensures InItsOrder(rooms, Plan(|rooms|, made, refused))
    decreases |made|
  {
    if made == [] {
    } else {
      var rest := made[1..];
      forall e, i, j | Holds(rest, e, i) && Holds(rest, e, j)
        ensures i == j
      {
        assert Holds(made, e, i + 1) && Holds(made, e, j + 1);
      }
      PlanInItsOrder(rooms + [made[0]], rest, refused);
      forall e | e in Players(made[0])
        ensures Lrem(e) !in Plan(|rooms| + 1, rest, refused)
      {
        NotPlacedAgain(made, e);
        PlanRemoves(|rooms| + 1, rest, refused, e);
      }
      RoundInItsOrder(rooms, made[0], refused, Plan(|rooms| + 1, rest, refused));
    }
  }

  lemma NotPlacedAgain(made: seq<Room>, e: Entry)
    requires made != [] && PlacesOnce(made) && e in Players(made[0])
    ensures !Placed(made[1..], e)
  {
    assert Holds(made, e, 0);
    if Placed(made[1..], e) {
      var k :| Holds(made[1..], e, k);
      assert Holds(made, e, k + 1);
    }
  }

  /** The pass is in its order; what calls were told is true; and nobody in an open room is queued. */
  ghost predicate InOrder(s: State) {
    && InItsOrder(s.rooms, s.plan)
    && (forall id :: id in s.calls && s.calls[id].result.Matched? ==>
          IsTrueOf(s.rooms, s.calls[id].entry.user, s.calls[id].result))
    && (forall e :: Placed(s.rooms, e) ==> Parsed(e) !in s.queue)
  }

  lemma RoomsOfAReadPlaceOnce(s: State, now: int)
    requires Tidy(s)
    ensures PlacesOnce(RoomsFor(s.queue, now))
  {
    forall e, i, j | Holds(RoomsFor(s.queue, now), e, i) && Holds(RoomsFor(s.queue, now), e, j)
      ensures i == j
    {
      RoomsForPlaces(s.queue, now, e);
      DistinctPlayers(RoomsFor(s.queue, now), e, i, j);
    }
  }

  lemma OpeningKeepsOrder(s: State, room: Room, rest: seq<Op>)
    requires Tidy(s) && InOrder(s) && s.plan == [Open(room)] + rest
    ensures InOrder(Exec(s.(plan := rest), Open(room)))
  {
    var t := Exec(s.(plan := rest), Open(room));
    OrderCons(s.rooms, Open(room), rest);
    forall id | id in s.calls && s.calls[id].result.Matched?
      ensures IsTrueOf(t.rooms, s.calls[id].entry.user, s.calls[id].result)
    {
      MoreRoomsKeepTruth(s.rooms, t.rooms, s.calls[id].entry.user, s.calls[id].result);
    }
    forall e | Placed(t.rooms, e)
      ensures Parsed(e) !in s.queue
    {
      OpensHead(Open(room), rest);
      assert Promised(s) == t.rooms + Opens(rest);
      PlacedConcat(t.rooms, Opens(rest), e);
      PlacedConcat(s.rooms, [room], e);
      assert Placed([room], e) ==> e in Players(room);
      assert Lrem(e) in s.plan ==> Lrem(e) in rest;
    }
  }

  lemma TellingKeepsOrder(s: State, user: User, r: Result, rest: seq<Op>)
    requires Tidy(s) && InOrder(s) && s.plan == [Tell(user, r)] + rest
    ensures InOrder(Exec(s.(plan := rest), Tell(user, r)))
  {
    OrderCons(s.rooms, Tell(user, r), rest);
  }

  lemma RemovingKeepsOrder(s: State, e: Entry, rest: seq<Op>)
    requires Tidy(s) && InOrder(s) && s.plan == [Lrem(e)] + rest
    ensures InOrder(Exec(s.(plan := rest), Lrem(e)))
  {
    OrderCons(s.rooms, Lrem(e), rest);
    RemoveFirstExactly(s.queue, e);
  }

  lemma StepKeepsOrder(s: State, step: Step)
    requires Tidy(s) && InOrder(s) && Enabled(s, step)
    ensures InOrder(Next(s, step))
  {
    match step
    case PassReads(now, refused) =>
      RoomsOfAReadPlaceOnce(s, now);
      PlanInItsOrder(s.rooms, RoomsFor(s.queue, now), refused);
    case PassSteps =>
      var op, rest := s.plan[0], s.plan[1..];
      assert s.plan == [op] + rest;
      match op {
        case Lrem(e) => RemovingKeepsOrder(s, e, rest);
        case Open(room) => OpeningKeepsOrder(s, room, rest);
        case Tell(user, r) => TellingKeepsOrder(s, user, r, rest);
      }
    case CancelRemoves(c) => RemoveFirstExactly(s.queue, s.cancels[c].entry);
    case Pushes(id) => PushKeepsOrder(s, id);
    case _ =>
  }

  lemma PushKeepsOrder(s: State, id: JoinId)
    requires Tidy(s) && InOrder(s) && id in s.calls && !s.calls[id].pushed
    ensures InOrder(Push(s, id))
  {
    PlacedConcat(s.rooms, Opens(s.plan), s.calls[id].entry);
  }

  /**
   * In every interleaving: whoever is sent to a room finds it open, it is a room of theirs, and an AI is in it exactly
   * if they were told so; and nobody in an open room is still queued.
   */
  lemma {:induction false} NewsIsTrue(s: State, steps: seq<Step>)
    requires Tidy(s) && InOrder(s) && Valid(s, steps)
    ensures Tidy(Run(s, steps)) && InOrder(Run(s, steps))
    decreases |steps|
  {
    if steps == [] {
    } else {
      StepKeepsTidy(s, steps[0]);
      StepKeepsOrder(s, steps[0]);
      NewsIsTrue(Next(s, steps[0]), steps[1..]);
    }
  }

  lemma IdleIsInOrder()
    ensures Tidy(IDLE) && InOrder(IDLE)
  {
    assert Promised(IDLE) == [];
  }
}
