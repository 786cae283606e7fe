/** The matchmaking queue, its waiters and the background pass, command by command (service/matchmaking.go). */
module Matchmaking {
  import opened Optional

  type User = int
  type JoinId = int

  const FALLBACK_WAIT := 30_000_000_000

  datatype Entry = Entry(user: User, difficulty: string, at: int)

  /** A queue element: an entry, or bytes that do not decode to one. */
  datatype Raw = Parsed(entry: Entry) | Garbage(bytes: string)

  datatype Result = Waiting | Matched(room: nat, isAI: bool)

  /** One Join call in flight: its entry, whether it has been pushed, its channel, and whether Cancel closed `done`. */
  datatype Call = Call(entry: Entry, pushed: bool, result: Result, cancelled: bool)

  /** One Cancel call past its locked section: still to read the queue, or about to remove what it found there. */
  datatype Cancelling = Scan(user: User) | Remove(entry: Entry)

  datatype Room = Pair(first: Entry, second: Entry) | VsAI(player: Entry, difficulty: string)

  /** One command of the background pass. */
  datatype Op = Lrem(entry: Entry) | Open(room: Room) | Tell(user: User, result: Result)

  /**
   * Rooms are numbered in order of creation; `waiters` is the service's map, `calls` and `cancels` are the requests
   * in flight, and `plan` is what is left of the pass. No operation reads `used`, every entry ever made, and
   * `turned`, the entries whose AI could not enter the room.
   */
  datatype State = State(queue: seq<Raw>, waiters: map<User, JoinId>, calls: map<JoinId, Call>,
                         cancels: map<int, Cancelling>, plan: seq<Op>, rooms: seq<Room>,
                         used: set<Entry>, turned: set<Entry>)

  const IDLE := State([], map[], map[], map[], [], [], {}, {})

  // ----- joining and leaving -----

  /** The locked section of Join; a second waiter for a user is refused. */
  function Register(s: State, id: JoinId, e: Entry): State {
    if e.user in s.waiters then s
    else s.(waiters := s.waiters[e.user := id], calls := s.calls[id := Call(e, false, Waiting, false)],
            used := s.used + {e})
  }

  function Push(s: State, id: JoinId): State
    requires id in s.calls
  {
    s.(queue := s.queue + [Parsed(s.calls[id].entry)], calls := s.calls[id := s.calls[id].(pushed := true)])
  }

  /** The deferred cleanup deletes the user's waiter, whichever call registered it. */
  function Leave(s: State, id: JoinId): State
    requires id in s.calls
  {
    s.(waiters := s.waiters - {s.calls[id].entry.user}, calls := s.calls - {id})
  }

  // ----- cancelling -----

  /** The locked section of Cancel: closes and removes the user's waiter. */
  function Close(s: State, user: User): State {
    if user in s.waiters && s.waiters[user] in s.calls
    then s.(calls := s.calls[s.waiters[user] := s.calls[s.waiters[user]].(cancelled := true)],
            waiters := s.waiters - {user})
    else s.(waiters := s.waiters - {user})
  }

  /** The user's first entry in the queue. */
  function FirstEntry(q: seq<Raw>, user: User): Option<Entry> {
    if q == [] then None
    else if q[0].Parsed? && q[0].entry.user == user then Some(q[0].entry)
    else FirstEntry(q[1..], user)
  }

  /** LREM key 1 raw. */
  function RemoveFirst(q: seq<Raw>, raw: Raw): seq<Raw> {
    if q == [] then []
    else if q[0] == raw then q[1..]
    else [q[0]] + RemoveFirst(q[1..], raw)
  }

  /** A Cancel nobody disturbs: close, find the user's first entry, remove it. */
  function CancelAlone(s: State, user: User): State {
    var first := FirstEntry(s.queue, user);
    var t := Close(s, user);
    if first.Some? then t.(queue := RemoveFirst(t.queue, Parsed(first.value))) else t
  }

  // ----- the pass -----

  /** A send on a full channel, or to a user without a waiter, is dropped. */
  function Notify(s: State, u: User, r: Result): State {
    if u in s.waiters && s.waiters[u] in s.calls && s.calls[s.waiters[u]].result == Waiting
    then s.(calls := s.calls[s.waiters[u] := s.calls[s.waiters[u]].(result := r)])
    else s
  }

  function Exec(s: State, op: Op): State {
    match op
    case Lrem(e) => s.(queue := RemoveFirst(s.queue, Parsed(e)))
    case Open(room) => s.(rooms := s.rooms + [room])
    case Tell(user, result) => Notify(s, user, result)
  }

  predicate IsStale(e: Entry, now: int) {
    now - e.at >= FALLBACK_WAIT
  }

  /** The decoded entries of a queue still waiting for a human, in order. */
  function Young(q: seq<Raw>, now: int): seq<Entry> {
    if q == [] then []
    else
      var young, raw := Young(q[..|q| - 1], now), q[|q| - 1];
      if raw.Parsed? && !IsStale(raw.entry, now) then young + [raw.entry] else young
  }

  /** Those that have waited long enough for an AI, in order. */
  function Stale(q: seq<Raw>, now: int): seq<Entry> {
    if q == [] then []
    else
      var stale, raw := Stale(q[..|q| - 1], now), q[|q| - 1];
      if raw.Parsed? && IsStale(raw.entry, now) then stale + [raw.entry] else stale
  }

  /** Neighbours in order of arrival. */
  function Pairs(young: seq<Entry>): seq<Room> {
    if |young| < 2 then [] else [Pair(young[0], young[1])] + Pairs(young[2..])
  }

  function Fallbacks(stale: seq<Entry>): seq<Room> {
    if stale == [] then []
    else [VsAI(stale[0], if stale[0].difficulty == "" then "easy" else stale[0].difficulty)] + Fallbacks(stale[1..])
  }

  /** The rooms a pass makes of the queue it reads: fresh entries two at a time, then one room a stale entry. */
  function RoomsFor(q: seq<Raw>, now: int): seq<Room> {
    Pairs(Young(q, now)) + Fallbacks(Stale(q, now))
  }

  /** The commands for one room; a player whose AI could not enter is not told. */
  function Round(n: nat, room: Room, refused: set<Entry>): seq<Op> {
    match room
    case Pair(p, q) =>
      [Lrem(p), Lrem(q), Open(room), Tell(p.user, Matched(n, false)), Tell(q.user, Matched(n, false))]
    case VsAI(e, _) =>
      [Lrem(e), Open(room)] + if e in refused then [] else [Tell(e.user, Matched(n, true))]
  }

  function Plan(n: nat, rooms: seq<Room>, refused: set<Entry>): seq<Op>
    decreases |rooms|
  {
    if rooms == [] then [] else Round(n, rooms[0], refused) + Plan(n + 1, rooms[1..], refused)
  }

  function RunOps(s: State, ops: seq<Op>): State
    decreases |ops|
  {
    if ops == [] then s else RunOps(Exec(s, ops[0]), ops[1..])
  }

  /** A pass nobody disturbs. */
  function Pass(s: State, now: int, refused: set<Entry>): State {
    RunOps(s, Plan(|s.rooms|, RoomsFor(s.queue, now), refused))
  }

  // ----- one undisturbed pass, from any state -----

  lemma {:induction false} RunOpsConcat(s: State, a: seq<Op>, b: seq<Op>)
    ensures RunOps(s, a + b) == RunOps(RunOps(s, a), b)
    decreases |a|
  {
    if a == [] {
      assert a + b == b;
    } else {
      assert (a + b)[0] == a[0] && (a + b)[1..] == a[1..] + b;
      RunOpsConcat(Exec(s, a[0]), a[1..], b);
    }
  }

  lemma OneOp(s: State, op: Op)
    ensures RunOps(s, [op]) == Exec(s, op)
  {
    assert [op][1..] == [];
    assert RunOps(Exec(s, op), []) == Exec(s, op);
  }

  lemma TwoOps(s: State, a: Op, b: Op)
    ensures RunOps(s, [a, b]) == Exec(Exec(s, a), b)
  {
    assert [a, b] == [a] + [b];
    RunOpsConcat(s, [a], [b]);
    OneOp(s, a);
    OneOp(Exec(s, a), b);
  }

  /** The five commands of a pair, in order. */
  lemma PairRound(s: State, n: nat, p: Entry, q: Entry, refused: set<Entry>)
    ensures var t := Exec(Exec(Exec(s, Lrem(p)), Lrem(q)), Open(Pair(p, q)));
      RunOps(s, Round(n, Pair(p, q), refused)) ==
        Notify(Notify(t, p.user, Matched(n, false)), q.user, Matched(n, false))
  {
    var a, b := [Lrem(p), Lrem(q)], [Tell(p.user, Matched(n, false)), Tell(q.user, Matched(n, false))];
    assert Round(n, Pair(p, q), refused) == a + ([Open(Pair(p, q))] + b);
    RunOpsConcat(s, a, [Open(Pair(p, q))] + b);
    TwoOps(s, Lrem(p), Lrem(q));
    var t := RunOps(s, a);
    RunOpsConcat(t, [Open(Pair(p, q))], b);
    OneOp(t, Open(Pair(p, q)));
    TwoOps(Exec(t, Open(Pair(p, q))), b[0], b[1]);
  }

  lemma FallbackRound(s: State, n: nat, room: Room, refused: set<Entry>)
    requires room.VsAI?
    ensures var t := Exec(Exec(s, Lrem(room.player)), Open(room));
      RunOps(s, Round(n, room, refused)) ==
        if room.player in refused then t else Notify(t, room.player.user, Matched(n, true))
  {
    var a := [Lrem(room.player), Open(room)];
    TwoOps(s, a[0], a[1]);
    if room.player in refused {
      assert Round(n, room, refused) == a;
    } else {
      var b := Tell(room.player.user, Matched(n, true));
      assert Round(n, room, refused) == a + [b];
      RunOpsConcat(s, a, [b]);
      OneOp(RunOps(s, a), b);
    }
  }

  function Players(room: Room): seq<Entry> {
    match room
    case Pair(p, q) => [p, q]
    case VsAI(e, _) => [e]
  }

  function AllPlayers(rooms: seq<Room>): seq<Entry> {
    if rooms == [] then [] else Players(rooms[0]) + AllPlayers(rooms[1..])
  }

  function RemoveAll(q: seq<Raw>, es: seq<Entry>): seq<Raw>
    decreases |es|
  {
    if es == [] then q else RemoveAll(RemoveFirst(q, Parsed(es[0])), es[1..])
  }

  lemma {:induction false} RemoveAllConcat(q: seq<Raw>, a: seq<Entry>, b: seq<Entry>)
    ensures RemoveAll(q, a + b) == RemoveAll(RemoveAll(q, a), b)
    decreases |a|
  {
    if a == [] {
      assert a + b == b;
    } else {
      assert (a + b)[0] == a[0] && (a + b)[1..] == a[1..] + b;
      RemoveAllConcat(RemoveFirst(q, Parsed(a[0])), a[1..], b);
    }
  }

  /** One round opens its room and takes its players off the queue. */
  lemma RoundEffect(s: State, n: nat, room: Room, refused: set<Entry>)
    ensures var t := RunOps(s, Round(n, room, refused));
      t.rooms == s.rooms + [room] && t.queue == RemoveAll(s.queue, Players(room))
  {
    match room
    case Pair(p, q) =>
      PairRound(s, n, p, q, refused);
      assert [p, q][1..] == [q] && [q][1..] == [];
      var left := RemoveFirst(RemoveFirst(s.queue, Parsed(p)), Parsed(q));
      assert RemoveAll(left, []) == left;
      assert RemoveAll(RemoveFirst(s.queue, Parsed(p)), [q]) == left;
      assert RemoveAll(s.queue, [p, q]) == RemoveFirst(RemoveFirst(s.queue, Parsed(p)), Parsed(q));
    case VsAI(e, _) =>
      FallbackRound(s, n, room, refused);
      assert [e][1..] == [];
      assert RemoveAll(s.queue, [e]) == RemoveFirst(s.queue, Parsed(e));
  }

  lemma {:induction false} PlanEffect(s: State, n: nat, rooms: seq<Room>, refused: set<Entry>)
    ensures var t := RunOps(s, Plan(n, rooms, refused));
      t.rooms == s.rooms + rooms && t.queue == RemoveAll(s.queue, AllPlayers(rooms))
    decreases |rooms|
  {
    if rooms == [] {
      assert s.rooms + rooms == s.rooms;
    } else {
      RunOpsConcat(s, Round(n, rooms[0], refused), Plan(n + 1, rooms[1..], refused));
      RoundEffect(s, n, rooms[0], refused);
      var t := RunOps(s, Round(n, rooms[0], refused));
      PlanEffect(t, n + 1, rooms[1..], refused);
      RemoveAllConcat(s.queue, Players(rooms[0]), AllPlayers(rooms[1..]));
      assert s.rooms + rooms == s.rooms + [rooms[0]] + rooms[1..];
    }
  }

  /**
   * One pass, whatever the queue holds: fresh entries are paired with their neighbours in order of arrival, then
   * every stale entry gets an AI room.
   */
  lemma PassCreatesRooms(s: State, now: int, refused: set<Entry>)
    ensures Pass(s, now, refused).rooms == s.rooms + RoomsFor(s.queue, now)
  {
    PlanEffect(s, |s.rooms|, RoomsFor(s.queue, now), refused);
  }

  /** The k-th pair is made of the neighbours 2k and 2k + 1 in order of arrival. */
  lemma {:induction false} PairsAreNeighbours(young: seq<Entry>, k: nat)
    requires k < |young| / 2
    ensures |Pairs(young)| == |young| / 2 && Pairs(young)[k] == Pair(young[2 * k], young[2 * k + 1])
    decreases |young|
  {
    if k > 0 {
      PairsAreNeighbours(young[2..], k - 1);
    } else if |young| >= 4 {
      PairsAreNeighbours(young[2..], 0);
    }
  }

  // ----- who is served, and how -----

  /** The element at i decodes to an entry that has waited at least half a minute, in nanoseconds. */
  predicate HasWaited(q: seq<Raw>, now: int, i: nat)
    requires i < |q|
  {
    q[i].Parsed? && now - q[i].entry.at >= 30_000_000_000
  }

  predicate IsFresh(q: seq<Raw>, now: int, i: nat)
    requires i < |q|
  {
    q[i].Parsed? && now - q[i].entry.at < 30_000_000_000
  }

  ghost predicate Rising(at: seq<nat>) {
    forall j, k :: 0 <= j < k < |at| ==> at[j] < at[k]
  }

  /** The positions of the fresh entries, in order. */
  ghost predicate ListsFresh(at: seq<nat>, q: seq<Raw>, now: int) {
    Rising(at) && forall i: nat :: i in at <==> i < |q| && IsFresh(q, now, i)
  }

  /** The positions of those that have waited, in order. */
  ghost predicate ListsWaited(at: seq<nat>, q: seq<Raw>, now: int) {
    Rising(at) && forall i: nat :: i in at <==> i < |q| && HasWaited(q, now, i)
  }

  /** The entries are those at the positions. */
  ghost predicate Picks(es: seq<Entry>, q: seq<Raw>, at: seq<nat>) {
    |es| == |at| && forall k :: 0 <= k < |at| ==> at[k] < |q| && q[at[k]] == Parsed(es[k])
  }

  lemma {:induction false} YoungAreTheFresh(q: seq<Raw>, now: int) returns (at: seq<nat>)
    ensures ListsFresh(at, q, now) && Picks(Young(q, now), q, at)
  {
    if q == [] {
      at := [];
    } else {
      var n := |q| - 1;
      at := YoungAreTheFresh(q[..n], now);
      assert forall i: nat :: i < n ==> (IsFresh(q, now, i) <==> IsFresh(q[..n], now, i));
      assert forall k :: 0 <= k < |at| ==> at[k] in at;
      if IsFresh(q, now, n) {
        at := at + [n];
      }
    }
  }

  lemma {:induction false} StaleAreTheWaited(q: seq<Raw>, now: int) returns (at: seq<nat>)
    ensures ListsWaited(at, q, now) && Picks(Stale(q, now), q, at)
  {
    if q == [] {
      at := [];
    } else {
      var n := |q| - 1;
      at := StaleAreTheWaited(q[..n], now);
      assert forall i: nat :: i < n ==> (HasWaited(q, now, i) <==> HasWaited(q[..n], now, i));
      assert forall k :: 0 <= k < |at| ==> at[k] in at;
      if HasWaited(q, now, n) {
        at := at + [n];
      }
    }
  }

  /** The room an AI opens for an entry. */
  ghost predicate IsAIRoomFor(room: Room, e: Entry) {
    room.VsAI? && room.player == e
    && (e.difficulty == "" ==> room.difficulty == "easy") && (e.difficulty != "" ==> room.difficulty == e.difficulty)
  }

  lemma {:induction false} FallbacksInOrder(stale: seq<Entry>, k: nat)
    requires k < |stale|
    ensures |Fallbacks(stale)| == |stale| && IsAIRoomFor(Fallbacks(stale)[k], stale[k])
  {
    if |stale| > 1 {
      FallbacksInOrder(stale[1..], if k > 0 then k - 1 else 0);
    }
  }

  lemma {:induction false} PairsCount(young: seq<Entry>)
    ensures |Pairs(young)| == |young| / 2
    decreases |young|
  {
    if |young| >= 2 {
      PairsCount(young[2..]);
    }
  }

  /**
   * The rooms of a queue, by position. Entries that have waited less than half a minute are paired in order of
   * arrival, the first with the second, the third with the fourth; then each that has waited longer gets an AI room
   * on its difficulty, in order of arrival.
   */
  lemma RoomsOfAQueue(q: seq<Raw>, now: int) returns (recent: seq<nat>, waited: seq<nat>)
    ensures ListsFresh(recent, q, now) && ListsWaited(waited, q, now)
    ensures var rooms := RoomsFor(q, now);
      && |rooms| == |recent| / 2 + |waited|
      && (forall k :: 0 <= k < |recent| / 2 ==>
            && recent[2 * k] < |q| && recent[2 * k + 1] < |q| && rooms[k].Pair?
            && q[recent[2 * k]] == Parsed(rooms[k].first) && q[recent[2 * k + 1]] == Parsed(rooms[k].second))
      && (forall k :: 0 <= k < |waited| ==>
            && waited[k] < |q| && q[waited[k]].Parsed?
            && IsAIRoomFor(rooms[|recent| / 2 + k], q[waited[k]].entry))
  {
    var young, stale := Young(q, now), Stale(q, now);
    recent := YoungAreTheFresh(q, now);
    waited := StaleAreTheWaited(q, now);
    PairsCount(young);
    forall k | 0 <= k < |recent| / 2
      ensures Pairs(young)[k] == Pair(young[2 * k], young[2 * k + 1])
    {
      PairsAreNeighbours(young, k);
    }
    forall k | 0 <= k < |waited|
      ensures |Fallbacks(stale)| == |waited| && IsAIRoomFor(Fallbacks(stale)[k], stale[k])
    {
      FallbacksInOrder(stale, k);
    }
    if stale == [] {
      assert Fallbacks(stale) == [];
    }
  }

  /** The room is the entry's AI room. */
  ghost predicate HasAIRoom(rooms: seq<Room>, e: Entry) {
    exists k :: 0 <= k < |rooms| && IsAIRoomFor(rooms[k], e)
  }

  /** Whoever has waited half a minute gets an AI room, nobody else does, and no pair holds one who has. */
  lemma AIRoomsAreForTheWaitingExactly(q: seq<Raw>, now: int, e: Entry)
    ensures HasAIRoom(RoomsFor(q, now), e) <==> Parsed(e) in q && now - e.at >= 30_000_000_000
    ensures forall room :: room in RoomsFor(q, now) && room.Pair? ==>
      now - room.first.at < 30_000_000_000 && now - room.second.at < 30_000_000_000
  {
    var recent, waited := RoomsOfAQueue(q, now);
    var rooms, n := RoomsFor(q, now), |recent| / 2;
    forall k | 0 <= k < |rooms|
      ensures k < n ==> rooms[k].Pair? && now - rooms[k].first.at < 30_000_000_000
      ensures k < n ==> now - rooms[k].second.at < 30_000_000_000
      ensures k >= n ==> rooms[k].VsAI? && Parsed(rooms[k].player) in q
      ensures k >= n ==> now - rooms[k].player.at >= 30_000_000_000
    {
      if k < n {
        assert recent[2 * k] in recent && recent[2 * k + 1] in recent;
      } else {
        assert waited[k - n] in waited && IsAIRoomFor(rooms[n + (k - n)], q[waited[k - n]].entry);
      }
    }
    if Parsed(e) in q && now - e.at >= 30_000_000_000 {
      var i :| 0 <= i < |q| && q[i] == Parsed(e);
      assert HasWaited(q, now, i);
      var k :| 0 <= k < |waited| && waited[k] == i;
      assert IsAIRoomFor(rooms[n + k], e);
    }
  }

  /** What a cancel finds is the user's earliest entry in the queue. */
  lemma {:induction false} FirstEntryIsTheEarliest(q: seq<Raw>, user: User) returns (i: nat)
    ensures i <= |q| && forall j :: 0 <= j < i ==> !(q[j].Parsed? && q[j].entry.user == user)
    ensures if i < |q| then q[i].Parsed? && q[i].entry.user == user && FirstEntry(q, user) == Some(q[i].entry)
      else FirstEntry(q, user) == None
  {
    if q == [] || (q[0].Parsed? && q[0].entry.user == user) {
      i := 0;
    } else {
      var k := FirstEntryIsTheEarliest(q[1..], user);
      i := k + 1;
    }
  }

  /** How often raw occurs in a list of entries. */
  function Times(es: seq<Entry>, raw: Raw): nat {
    if es == [] then 0 else (if Parsed(es[0]) == raw then 1 else 0) + Times(es[1..], raw)
  }

  /** The last fresh entry when their number is odd. */
  function Leftover(young: seq<Entry>): seq<Entry> {
    if |young| % 2 == 1 then [young[|young| - 1]] else []
  }

  lemma {:induction false} TimesConcat(a: seq<Entry>, b: seq<Entry>, x: Raw)
    ensures Times(a + b, x) == Times(a, x) + Times(b, x)
  {
    if a == [] {
      assert a + b == b;
    } else {
      assert (a + b)[0] == a[0] && (a + b)[1..] == a[1..] + b;
      TimesConcat(a[1..], b, x);
    }
  }

  lemma {:induction false} AllPlayersConcat(a: seq<Room>, b: seq<Room>)
    ensures AllPlayers(a + b) == AllPlayers(a) + AllPlayers(b)
  {
    if a == [] {
      assert a + b == b;
    } else {
      assert (a + b)[0] == a[0] && (a + b)[1..] == a[1..] + b;
      AllPlayersConcat(a[1..], b);
    }
  }

  /** Everyone fresh is in a pair but the leftover. */
  lemma {:induction false} PairsTakeAllButOne(young: seq<Entry>)
    ensures young == AllPlayers(Pairs(young)) + Leftover(young)
    decreases |young|
  {
    if |young| >= 2 {
      PairsTakeAllButOne(young[2..]);
      AllPlayersHead(Pair(young[0], young[1]), Pairs(young[2..]));
      assert young == [young[0], young[1]] + young[2..];
    } else {
      assert AllPlayers(Pairs(young)) == [];
    }
  }

  lemma AllPlayersHead(room: Room, rest: seq<Room>)
    ensures AllPlayers([room] + rest) == Players(room) + AllPlayers(rest)
  {
    assert ([room] + rest)[0] == room && ([room] + rest)[1..] == rest;
  }

  lemma {:induction false} FallbacksTakeAll(stale: seq<Entry>)
    ensures AllPlayers(Fallbacks(stale)) == stale
  {
    if stale == [] {
    } else {
      FallbacksTakeAll(stale[1..]);
      AllPlayersHead(Fallbacks(stale)[0], Fallbacks(stale[1..]));
      assert stale == [stale[0]] + stale[1..];
    }
  }

  /** Every decoded element is young or stale, as often as it is queued; what does not decode is neither. */
  lemma {:induction false} QueueSplits(q: seq<Raw>, now: int, x: Raw)
    ensures Times(Young(q, now), x) + Times(Stale(q, now), x) == if x.Parsed? then multiset(q)[x] else 0
  {
    if q == [] {
    } else {
      var init, raw := q[..|q| - 1], q[|q| - 1];
      QueueSplits(init, now, x);
      assert q == init + [raw];
      if raw.Parsed? {
        TimesAppend(Young(init, now), raw.entry, x);
        TimesAppend(Stale(init, now), raw.entry, x);
      }
    }
  }

  lemma TimesAppend(es: seq<Entry>, e: Entry, x: Raw)
    ensures Times(es + [e], x) == Times(es, x) + if Parsed(e) == x then 1 else 0
  {
    TimesConcat(es, [e], x);
    assert [e][1..] == [];
  }

  lemma {:induction false} RemoveFirstCount(q: seq<Raw>, raw: Raw, x: Raw)
    ensures multiset(RemoveFirst(q, raw))[x] == if x == raw && x in q then multiset(q)[x] - 1 else multiset(q)[x]
  {
    if q == [] {
    } else {
      assert q == [q[0]] + q[1..];
      if q[0] != raw {
        RemoveFirstCount(q[1..], raw, x);
      }
    }
  }

  lemma {:induction false} RemoveAllCount(q: seq<Raw>, es: seq<Entry>, x: Raw)
    requires Times(es, x) <= multiset(q)[x]
    ensures multiset(RemoveAll(q, es))[x] == multiset(q)[x] - Times(es, x)
    decreases |es|
  {
    if es == [] {
    } else {
      RemoveFirstCount(q, Parsed(es[0]), x);
      assert x in q <==> x in multiset(q);
      RemoveAllCount(RemoveFirst(q, Parsed(es[0])), es[1..], x);
    }
  }

  /** The players of a pass: every decoded element but the leftover. */
  lemma PlayersOfThePass(q: seq<Raw>, now: int, x: Raw)
    ensures Times(AllPlayers(RoomsFor(q, now)), x) + Times(Leftover(Young(q, now)), x) ==
      if x.Parsed? then multiset(q)[x] else 0
  {
    var young, stale := Young(q, now), Stale(q, now);
    AllPlayersConcat(Pairs(young), Fallbacks(stale));
    FallbacksTakeAll(stale);
    TimesConcat(AllPlayers(Pairs(young)), stale, x);
    PairsTakeAllButOne(young);
    TimesConcat(AllPlayers(Pairs(young)), Leftover(young), x);
    QueueSplits(q, now, x);
  }

  /**
   * What leaves the queue is exactly what got a room: undecodable elements and at most one fresh entry, the last of
   * an odd number, stay.
   */
  lemma PassLeavesOneAtMost(s: State, now: int, refused: set<Entry>, x: Raw)
    ensures multiset(Pass(s, now, refused).queue)[x] ==
      if x.Garbage? then multiset(s.queue)[x] else Times(Leftover(Young(s.queue, now)), x)
  {
    var players := AllPlayers(RoomsFor(s.queue, now));
    PlanEffect(s, |s.rooms|, RoomsFor(s.queue, now), refused);
    PlayersOfThePass(s.queue, now, x);
    if x.Garbage? {
      NoGarbage(Leftover(Young(s.queue, now)), x);
      NoGarbage(players, x);
    }
    RemoveAllCount(s.queue, players, x);
  }

  lemma {:induction false} NoGarbage(es: seq<Entry>, x: Raw)
    requires x.Garbage?
    ensures Times(es, x) == 0
  {
    if es == [] {
    } else {
      NoGarbage(es[1..], x);
    }
  }

  // ----- the service -----

  class MatchmakingService {
    var queue: seq<Raw>
    var waiters: map<User, JoinId>
    var calls: map<JoinId, Call>
    var rooms: seq<Room>
    ghost var used: set<Entry>

    constructor ()
      ensures Contents() == IDLE
    {
      queue, waiters, calls, rooms, used := [], map[], map[], [], {};
    }

    /** What the service holds between requests; a request in flight keeps the rest in its local variables. */
    ghost function Contents(): State
      reads this
    {
      State(queue, waiters, calls, map[], [], rooms, used, {})
    }

    /** Registers the call; false for a user who already has a waiter. */
    method JoinStart(id: JoinId, user: User, difficulty: string, now: int) returns (ok: bool)
      modifies this
      ensures Contents() == Register(old(Contents()), id, Entry(user, difficulty, now))
      ensures ok <==> user !in old(waiters)
    {
      if user in waiters {
        return false;
      }
      waiters := waiters[user := id];
      calls := calls[id := Call(Entry(user, difficulty, now), false, Waiting, false)];
      used := used + {Entry(user, difficulty, now)};
      ok := true;
    }

    method Enqueue(id: JoinId)
      requires id in calls
      modifies this`queue, this`calls
      ensures Contents() == Push(old(Contents()), id)
    {
      queue := queue + [Parsed(calls[id].entry)];
      calls := calls[id := calls[id].(pushed := true)];
    }

    method Finish(id: JoinId)
      requires id in calls
      modifies this`waiters, this`calls
      ensures Contents() == Leave(old(Contents()), id)
    {
      waiters := waiters - {calls[id].entry.user};
      calls := calls - {id};
    }

    method Cancel(user: User)
      modifies this
      ensures Contents() == CancelAlone(old(Contents()), user)
    {
      if user in waiters {
        if waiters[user] in calls {
          calls := calls[waiters[user] := calls[waiters[user]].(cancelled := true)];
        }
      }
      waiters := waiters - {user};
      var i := FindUser(queue, user);
      if i < |queue| {
        queue := RemoveFirst(queue, queue[i]);
      }
    }

    method Send(user: User, r: Result)
      modifies this`calls
      ensures Contents() == Notify(old(Contents()), user, r)
    {
      if user in waiters && waiters[user] in calls && calls[waiters[user]].result == Waiting {
        calls := calls[waiters[user] := calls[waiters[user]].(result := r)];
      }
    }

    method MatchPair(p: Entry, q: Entry)
      modifies this
      ensures Contents() == RunOps(old(Contents()), Round(|old(rooms)|, Pair(p, q), {}))
    {
      PairRound(Contents(), |rooms|, p, q, {});
      queue := RemoveFirst(queue, Parsed(p));
      queue := RemoveFirst(queue, Parsed(q));
      var room := |rooms|;
      rooms := rooms + [Pair(p, q)];
      Send(p.user, Matched(room, false));
      Send(q.user, Matched(room, false));
    }

    method FallBack(e: Entry, joined: bool)
      modifies this
      ensures var room := VsAI(e, if e.difficulty == "" then "easy" else e.difficulty);
        Contents() == RunOps(old(Contents()), Round(|old(rooms)|, room, if joined then {} else {e}))
    {
      ghost var aiRoom := VsAI(e, if e.difficulty == "" then "easy" else e.difficulty);
      FallbackRound(Contents(), |rooms|, aiRoom, if joined then {} else {e});
      queue := RemoveFirst(queue, Parsed(e));
      var difficulty := e.difficulty;
      if difficulty == "" {
        difficulty := "easy";
      }
      var room := |rooms|;
      rooms := rooms + [VsAI(e, difficulty)];
      if joined {
        Send(e.user, Matched(room, true));
      }
    }

    /** The pairing loop. */
    method PairFresh(young: seq<Entry>, ghost rest: seq<Room>, ghost refused: set<Entry>, ghost end: State)
      requires Rounds(Contents(), Pairs(young) + rest, refused) == end
      modifies this
      ensures Rounds(Contents(), rest, refused) == end
    {
      var left := young;
      while |left| >= 2
        invariant Rounds(Contents(), Pairs(left) + rest, refused) == end
        decreases |left|
      {
        var p, q := left[0], left[1];
        assert (Pairs(left) + rest)[1..] == Pairs(left[2..]) + rest;
        left := left[2..];
        MatchPair(p, q);
      }
      assert Pairs(left) + rest == rest;
    }

    /** The AI fallback loop. */
    method FallBackAll(stale: seq<Entry>, refused: set<Entry>, ghost end: State)
      requires Rounds(Contents(), Fallbacks(stale), refused) == end
      modifies this
      ensures Contents() == end
    {
      for i := 0 to |stale|
        invariant Rounds(Contents(), Fallbacks(stale[i..]), refused) == end
      {
        assert stale[i..][0] == stale[i] && stale[i..][1..] == stale[i + 1..];
        assert Fallbacks(stale[i..])[1..] == Fallbacks(stale[i + 1..]);
        FallBack(stale[i], stale[i] !in refused);
      }
    }

    /** The background pass: decode and split, pair two at a time, then the AI fallback. */
    method ProcessQueue(now: int, refused: set<Entry>)
      modifies this
      ensures Contents() == Pass(old(Contents()), now, refused)
    {
      var young, stale := SplitQueue(queue, now);
      ghost var end := Pass(Contents(), now, refused);
      PlanIsRounds(Contents(), RoomsFor(queue, now), refused);
      PairFresh(young, Fallbacks(stale), refused, end);
      FallBackAll(stale, refused, end);
    }
  }

  /** The rounds of these rooms, one after the other. */
  ghost function Rounds(s: State, rooms: seq<Room>, refused: set<Entry>): State
    decreases |rooms|
  {
    if rooms == [] then s
    else Rounds(RunOps(s, Round(|s.rooms|, rooms[0], OwnRefusal(rooms[0], refused))), rooms[1..], refused)
  }

  /** The refusals that concern one room. */
  function OwnRefusal(room: Room, refused: set<Entry>): set<Entry> {
    if room.VsAI? && room.player in refused then {room.player} else {}
  }

  lemma {:induction false} PlanIsRounds(s: State, rooms: seq<Room>, refused: set<Entry>)
    ensures RunOps(s, Plan(|s.rooms|, rooms, refused)) == Rounds(s, rooms, refused)
    decreases |rooms|
  {
    if rooms == [] {
    } else {
      var n := |s.rooms|;
      var round := Round(n, rooms[0], refused);
      assert round == Round(n, rooms[0], OwnRefusal(rooms[0], refused));
      var t := RunOps(s, round);
      RunOpsConcat(s, round, Plan(n + 1, rooms[1..], refused));
      RoundEffect(s, n, rooms[0], refused);
      assert |t.rooms| == n + 1;
      PlanIsRounds(t, rooms[1..], refused);
    }
  }

  method FindUser(q: seq<Raw>, user: User) returns (i: nat)
    ensures i <= |q|
    ensures FirstEntry(q, user) == if i < |q| && q[i].Parsed? then Some(q[i].entry) else None
    ensures i < |q| ==> q[i].Parsed?
  {
    i := 0;
    while i < |q| && !(q[i].Parsed? && q[i].entry.user == user)
      invariant i <= |q|
      invariant FirstEntry(q, user) == FirstEntry(q[i..], user)
    {
      assert q[i..][0] == q[i] && q[i..][1..] == q[i + 1..];
      i := i + 1;
    }
    if i < |q| {
      assert q[i..][0] == q[i];
    }
  }

  method SplitQueue(q: seq<Raw>, now: int) returns (young: seq<Entry>, stale: seq<Entry>)
    ensures young == Young(q, now) && stale == Stale(q, now)
  {
    young, stale := [], [];
    for i := 0 to |q|
      invariant young == Young(q[..i], now) && stale == Stale(q[..i], now)
    {
      assert q[..i + 1][..i] == q[..i];
      if q[i].Parsed? {
        if IsStale(q[i].entry, now) {
          stale := stale + [q[i].entry];
        } else {
          young := young + [q[i].entry];
        }
      }
    }
    assert q[..|q|] == q;
  }
}
