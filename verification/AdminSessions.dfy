/** Admin panel sessions held as expiring keys (service/admin_auth.go). */
module AdminSessions {

  type Token = int
  type Admin = int

  /** The sliding idle timeout and the fixed cap, both positive. */
  datatype Ttl = Ttl(idle: int, abs: int)

  /** The key of one session: what is stored under it, and when it lapses. */
  datatype Session = Session(admin: Admin, created: int, expires: int)

  /** The key of one admin's index set. */
  datatype Index = Index(tokens: set<Token>, expires: int)

  datatype Account = Account(role: string, disabled: bool)

  /** A revoke-all that has read the index and not yet deleted anything. */
  datatype Sweep = Sweep(admin: Admin, tokens: set<Token>)

  /** `issued` holds every token ever created; no operation reads it. */
  datatype State = State(now: int, sessions: map<Token, Session>, index: map<Admin, Index>,
                         accounts: map<Admin, Account>, sweeps: map<int, Sweep>, issued: set<Token>)

  datatype Answer = Refused | Granted(admin: Admin, role: string, created: int)

  /** A key is there until it expires. */
  predicate Live(s: State, token: Token) {
    token in s.sessions && s.sessions[token].expires > s.now
  }

  function LiveIndex(s: State, admin: Admin): set<Token> {
    if admin in s.index && s.index[admin].expires > s.now then s.index[admin].tokens else {}
  }

  function CreateSession(s: State, ttl: Ttl, token: Token, admin: Admin): State {
    s.(sessions := s.sessions[token := Session(admin, s.now, s.now + ttl.idle)],
       index := s.index[admin := Index(LiveIndex(s, admin) + {token}, s.now + ttl.abs)],
       issued := s.issued + {token})
  }

  /** DEL the session, SREM it from the index. */
  function Revoke(s: State, admin: Admin, token: Token): State {
    s.(sessions := s.sessions - {token},
       index := if LiveIndex(s, admin) != {}
         then s.index[admin := s.index[admin].(tokens := s.index[admin].tokens - {token})]
         else s.index)
  }

  function Remaining(s: State, ttl: Ttl, token: Token): int
    requires token in s.sessions
  {
    s.sessions[token].created + ttl.abs - s.now
  }

  predicate Active(s: State, admin: Admin) {
    admin in s.accounts && !s.accounts[admin].disabled
  }

  function Authenticate(s: State, ttl: Ttl, token: Token): (State, Answer) {
    if !Live(s, token) then (s, Refused)
    else
      var session := s.sessions[token];
      var remaining := Remaining(s, ttl, token);
      if remaining <= 0 || !Active(s, session.admin) then (Revoke(s, session.admin, token), Refused)
      else
        var slide := if remaining < ttl.idle then remaining else ttl.idle;
        (s.(sessions := s.sessions[token := session.(expires := s.now + slide)]),
         Granted(session.admin, s.accounts[session.admin].role, session.created))
  }

  /** RevokeAll's first command reads the index, … */
  function SweepRead(s: State, id: int, admin: Admin): State {
    s.(sweeps := s.sweeps[id := Sweep(admin, LiveIndex(s, admin))])
  }

  /** … and its second deletes the index key and the sessions that were read. */
  function SweepDelete(s: State, id: int): State {
    if id !in s.sweeps then s
    else s.(index := s.index - {s.sweeps[id].admin}, sessions := s.sessions - s.sweeps[id].tokens,
            sweeps := s.sweeps - {id})
  }

  datatype Step =
    | Wait(to: int)
    | Login(token: Token, admin: Admin)
    | Auth(token: Token)
    | Logout(admin: Admin, token: Token)
    | BeginRevokeAll(id: int, admin: Admin)
    | EndRevokeAll(id: int)
    | SetAccount(admin: Admin, account: Account)

  predicate Enabled(s: State, step: Step) {
    match step
    case Wait(to) => to >= s.now
    case Login(token, _) => token !in s.issued
    case BeginRevokeAll(id, _) => id !in s.sweeps
    case EndRevokeAll(id) => id in s.sweeps
    case _ => true
  }

  function Next(s: State, ttl: Ttl, step: Step): State
    requires Enabled(s, step)
  {
    match step
    case Wait(to) => s.(now := to)
    case Login(token, admin) => CreateSession(s, ttl, token, admin)
    case Auth(token) => Authenticate(s, ttl, token).0
    case Logout(admin, token) => Revoke(s, admin, token)
    case BeginRevokeAll(id, admin) => SweepRead(s, id, admin)
    case EndRevokeAll(id) => SweepDelete(s, id)
    case SetAccount(admin, account) => s.(accounts := s.accounts[admin := account])
  }

  /** The session could still authenticate, were its account active. */
  predicate Usable(s: State, ttl: Ttl, token: Token) {
    Live(s, token) && Remaining(s, ttl, token) > 0
  }

  /** Authentication succeeds exactly for usable sessions of active accounts, with the account's current role. */
  lemma AuthenticatesExactly(s: State, ttl: Ttl, token: Token)
    ensures Authenticate(s, ttl, token).1.Granted? <==> Usable(s, ttl, token) && Active(s, s.sessions[token].admin)
    ensures var a := Authenticate(s, ttl, token).1; a.Granted? ==>
      && a.admin == s.sessions[token].admin && a.role == s.accounts[a.admin].role
      && s.now < a.created + ttl.abs
  {
  }

  /** The session is in its admin's index, and the index outlives it. */
  ghost predicate Indexed(s: State, ttl: Ttl, token: Token)
    requires token in s.sessions
  {
    var admin := s.sessions[token].admin;
    token in LiveIndex(s, admin) && s.index[admin].expires >= s.sessions[token].created + ttl.abs
  }

  ghost predicate Sane(s: State) {
    && s.sessions.Keys <= s.issued
    && (forall t :: t in s.sessions ==> s.sessions[t].created <= s.now)
    && (forall a :: a in s.index ==> s.index[a].tokens <= s.issued)
  }

  /** Every session that could authenticate can be found by revoke-all. */
  ghost predicate Inv(s: State, ttl: Ttl) {
    Sane(s) && forall t :: Usable(s, ttl, t) ==> Indexed(s, ttl, t)
  }

  lemma LoginKeepsInv(s: State, ttl: Ttl, token: Token, admin: Admin)
    requires Inv(s, ttl) && token !in s.issued
    ensures Inv(CreateSession(s, ttl, token, admin), ttl)
  {
    var n := CreateSession(s, ttl, token, admin);
    forall t | Usable(n, ttl, t)
      ensures Indexed(n, ttl, t)
    {
      assert t != token ==> Usable(s, ttl, t) && Indexed(s, ttl, t);
    }
  }

  lemma RevokeKeepsInv(s: State, ttl: Ttl, admin: Admin, token: Token)
    requires Inv(s, ttl)
    ensures Inv(Revoke(s, admin, token), ttl) && !Usable(Revoke(s, admin, token), ttl, token)
  {
    var n := Revoke(s, admin, token);
    forall t | Usable(n, ttl, t)
      ensures Indexed(n, ttl, t)
    {
      assert Usable(s, ttl, t) && Indexed(s, ttl, t);
    }
  }

  /**
   * Sliding: a granted call moves the expiry to the idle timeout from now, but never past the absolute
   * cap, and changes nothing else; a refused one leaves the state well kept too.
   */
  lemma AuthenticateSlides(s: State, ttl: Ttl, token: Token)
    requires Inv(s, ttl)
    ensures var (n, a) := Authenticate(s, ttl, token); Inv(n, ttl) && (a.Granted? ==>
      && n.sessions[token].expires <= n.sessions[token].created + ttl.abs
      && n.sessions[token].expires <= s.now + ttl.idle
      && (n.sessions[token].expires == n.sessions[token].created + ttl.abs ||
          n.sessions[token].expires == s.now + ttl.idle)
      && n == s.(sessions := s.sessions[token := n.sessions[token]])
      && n.sessions[token].(expires := 0) == s.sessions[token].(expires := 0))
  {
    var (n, a) := Authenticate(s, ttl, token);
    if a.Granted? {
      forall t | Usable(n, ttl, t)
        ensures Indexed(n, ttl, t)
      {
        assert Usable(s, ttl, t) && Indexed(s, ttl, t);
      }
    } else if Live(s, token) {
      RevokeKeepsInv(s, ttl, s.sessions[token].admin, token);
    }
  }

  /**
   * Revoke-all's two commands are not one. Deleting the index keeps every usable session findable exactly
   * when no usable session of that admin has appeared since the index was read.
   */
  lemma SweepDeleteKeepsInvExactly(s: State, ttl: Ttl, id: int)
    requires Inv(s, ttl) && id in s.sweeps
    ensures Inv(SweepDelete(s, id), ttl) <==>
      forall t :: Usable(s, ttl, t) && s.sessions[t].admin == s.sweeps[id].admin ==> t in s.sweeps[id].tokens
  {
    var n := SweepDelete(s, id);
    if forall t :: Usable(s, ttl, t) && s.sessions[t].admin == s.sweeps[id].admin ==> t in s.sweeps[id].tokens {
      forall t | Usable(n, ttl, t)
        ensures Indexed(n, ttl, t)
      {
        assert Usable(s, ttl, t) && Indexed(s, ttl, t);
      }
    } else {
      var t :| Usable(s, ttl, t) && s.sessions[t].admin == s.sweeps[id].admin && t !in s.sweeps[id].tokens;
      assert Usable(n, ttl, t) && !Indexed(n, ttl, t);
    }
  }

  // ----- runs -----

  ghost predicate Valid(s: State, ttl: Ttl, steps: seq<Step>)
    decreases |steps|
  {
    steps != [] ==> Enabled(s, steps[0]) && Valid(Next(s, ttl, steps[0]), ttl, steps[1..])
  }

  ghost function Run(s: State, ttl: Ttl, steps: seq<Step>): State
    requires Valid(s, ttl, steps)
    decreases |steps|
  {
    if steps == [] then s else Run(Next(s, ttl, steps[0]), ttl, steps[1..])
  }

  /** Facts about a token that no step can undo: it was issued, to whom, and when. */
  ghost predicate Born(s: State, token: Token, admin: Admin, created: int) {
    && s.sessions.Keys <= s.issued && token in s.issued
    && (token in s.sessions ==> s.sessions[token].admin == admin && s.sessions[token].created == created)
  }

  lemma {:induction false} BirthIsForever(s: State, ttl: Ttl, steps: seq<Step>, token: Token, admin: Admin,
                                          created: int)
    requires Born(s, token, admin, created) && Valid(s, ttl, steps)
    ensures Born(Run(s, ttl, steps), token, admin, created) && Run(s, ttl, steps).now >= s.now
    decreases |steps|
  {
    if steps == [] {
    } else {
      BirthIsForever(Next(s, ttl, steps[0]), ttl, steps[1..], token, admin, created);
    }
  }

  /** However often it slides, a token never authenticates at or after its creation plus the cap. */
  lemma NoTokenOutlivesTheCap(s: State, ttl: Ttl, token: Token, admin: Admin, steps: seq<Step>)
    requires s.sessions.Keys <= s.issued && Enabled(s, Login(token, admin))
    requires Valid(CreateSession(s, ttl, token, admin), ttl, steps)
    ensures var t := Run(CreateSession(s, ttl, token, admin), ttl, steps);
      t.now >= s.now + ttl.abs ==> Authenticate(t, ttl, token).1 == Refused
  {
    BirthIsForever(CreateSession(s, ttl, token, admin), ttl, steps, token, admin, s.now);
  }

  /** A token of the admin that is out of reach stays out of reach. */
  ghost predicate Dead(s: State, ttl: Ttl, token: Token) {
    token in s.issued && !Usable(s, ttl, token)
  }

  lemma {:induction false} DeadStaysDead(s: State, ttl: Ttl, steps: seq<Step>, token: Token)
    requires Dead(s, ttl, token) && Valid(s, ttl, steps)
    ensures Dead(Run(s, ttl, steps), ttl, token)
    decreases |steps|
  {
    if steps == [] {
    } else {
      DeadStaysDead(Next(s, ttl, steps[0]), ttl, steps[1..], token);
    }
  }

  /** While revoke-all is between its commands, each earlier token of the admin is on its list or out of reach. */
  ghost predicate Doomed(s: State, ttl: Ttl, id: int, token: Token) {
    id in s.sweeps && token in s.issued && (Usable(s, ttl, token) ==> token in s.sweeps[id].tokens)
  }

  lemma {:induction false} DoomedStaysDoomed(s: State, ttl: Ttl, steps: seq<Step>, id: int, token: Token)
    requires Doomed(s, ttl, id, token) && Valid(s, ttl, steps) && EndRevokeAll(id) !in steps
    ensures Doomed(Run(s, ttl, steps), ttl, id, token)
    decreases |steps|
  {
    if steps == [] {
    } else {
      assert steps[0] in steps && forall x :: x in steps[1..] ==> x in steps;
      DoomedStaysDoomed(Next(s, ttl, steps[0]), ttl, steps[1..], id, token);
    }
  }

  /**
   * Revocation is complete. From a well-kept state, whatever happens between the two commands of a
   * revoke-all and whatever happens after it, no session the admin had before it ever authenticates again.
   */
  lemma RevokeAllIsComplete(s: State, ttl: Ttl, id: int, admin: Admin, during: seq<Step>, after: seq<Step>,
                            token: Token)
    requires Inv(s, ttl) && id !in s.sweeps && token in s.sessions && s.sessions[token].admin == admin
    requires Valid(SweepRead(s, id, admin), ttl, during) && EndRevokeAll(id) !in during
    requires Valid(SweepDelete(Run(SweepRead(s, id, admin), ttl, during), id), ttl, after)
    ensures var mid := Run(SweepRead(s, id, admin), ttl, during);
      && id in mid.sweeps
      && Authenticate(Run(SweepDelete(mid, id), ttl, after), ttl, token).1 == Refused
  {
    assert Usable(SweepRead(s, id, admin), ttl, token) ==> Usable(s, ttl, token);
    DoomedStaysDoomed(SweepRead(s, id, admin), ttl, during, id, token);
    var mid := Run(SweepRead(s, id, admin), ttl, during);
    DeadStaysDead(SweepDelete(mid, id), ttl, after, token);
  }

  /** A revoke-all is quiet when nobody opened a usable session of its admin since it read the index. */
  ghost predicate Quiet(s: State, ttl: Ttl, step: Step) {
    step.EndRevokeAll? && step.id in s.sweeps ==>
      forall t :: Usable(s, ttl, t) && s.sessions[t].admin == s.sweeps[step.id].admin ==> t in s.sweeps[step.id].tokens
  }

  ghost predicate QuietRun(s: State, ttl: Ttl, steps: seq<Step>)
    requires Valid(s, ttl, steps)
    decreases |steps|
  {
    steps != [] ==> Quiet(s, ttl, steps[0]) && QuietRun(Next(s, ttl, steps[0]), ttl, steps[1..])
  }

  lemma QuietStepKeepsInv(s: State, ttl: Ttl, step: Step)
    requires Inv(s, ttl) && Enabled(s, step) && Quiet(s, ttl, step)
    ensures Inv(Next(s, ttl, step), ttl)
  {
    var n := Next(s, ttl, step);
    match step {
      case Login(token, admin) => LoginKeepsInv(s, ttl, token, admin);
      case Auth(token) => AuthenticateSlides(s, ttl, token);
      case Logout(admin, token) => RevokeKeepsInv(s, ttl, admin, token);
      case EndRevokeAll(id) => SweepDeleteKeepsInvExactly(s, ttl, id);
      case _ =>
        forall t | Usable(n, ttl, t)
          ensures Indexed(n, ttl, t)
        {
          assert Usable(s, ttl, t) && Indexed(s, ttl, t);
        }
    }
  }

  /** In every run whose revoke-alls are quiet, each session that could authenticate stays findable. */
  lemma {:induction false} QuietRunsKeepInv(s: State, ttl: Ttl, steps: seq<Step>)
    requires Inv(s, ttl) && Valid(s, ttl, steps) && QuietRun(s, ttl, steps)
    ensures Inv(Run(s, ttl, steps), ttl)
    decreases |steps|
  {
    if steps == [] {
    } else {
      QuietStepKeepsInv(s, ttl, steps[0]);
      QuietRunsKeepInv(Next(s, ttl, steps[0]), ttl, steps[1..]);
    }
  }

  /** Nobody logs in as an admin whose revoke-all is between its two commands. */
  ghost predicate Apart(s: State, step: Step) {
    step.Login? ==> forall id :: id in s.sweeps ==> s.sweeps[id].admin != step.admin
  }

  ghost predicate ApartRun(s: State, ttl: Ttl, steps: seq<Step>)
    requires Valid(s, ttl, steps)
    decreases |steps|
  {
    steps != [] ==> Apart(s, steps[0]) && ApartRun(Next(s, ttl, steps[0]), ttl, steps[1..])
  }

  /** A revoke-all in progress has read every usable session of its admin. */
  ghost predicate SweepsCover(s: State, ttl: Ttl) {
    forall id, t :: id in s.sweeps && Usable(s, ttl, t) && s.sessions[t].admin == s.sweeps[id].admin ==>
      t in s.sweeps[id].tokens
  }

  lemma ApartStepKeepsCover(s: State, ttl: Ttl, step: Step)
    requires Inv(s, ttl) && SweepsCover(s, ttl) && Enabled(s, step) && Apart(s, step)
    ensures Quiet(s, ttl, step) && SweepsCover(Next(s, ttl, step), ttl)
  {
    var n := Next(s, ttl, step);
    forall id, t | id in n.sweeps && Usable(n, ttl, t) && n.sessions[t].admin == n.sweeps[id].admin
      ensures t in n.sweeps[id].tokens
    {
      if !step.Login? || t != step.token {
        assert Usable(s, ttl, t) && s.sessions[t].admin == n.sessions[t].admin && Indexed(s, ttl, t);
      }
    }
  }

  /** A run without a login inside a revoke-all is quiet, so each session that could authenticate stays findable. */
  lemma {:induction false} ApartRunsAreQuiet(s: State, ttl: Ttl, steps: seq<Step>)
    requires Inv(s, ttl) && SweepsCover(s, ttl) && Valid(s, ttl, steps) && ApartRun(s, ttl, steps)
    ensures QuietRun(s, ttl, steps) && Inv(Run(s, ttl, steps), ttl)
    decreases |steps|
  {
    if steps == [] {
    } else {
      ApartStepKeepsCover(s, ttl, steps[0]);
      QuietStepKeepsInv(s, ttl, steps[0]);
      ApartRunsAreQuiet(Next(s, ttl, steps[0]), ttl, steps[1..]);
    }
  }

  /** A login between the two commands leaves a session that no later revoke-all of a quiet panel finds. */
  lemma LoginDuringRevokeAllEscapesTheNext(admin: Admin, role: string)
    ensures var ttl := Ttl(2, 12);
      var s := State(0, map[], map[], map[admin := Account(role, false)], map[], {});
      var torn := SweepDelete(CreateSession(SweepRead(s, 1, admin), ttl, 7, admin), 1);
      var again := SweepDelete(SweepRead(torn, 2, admin), 2);
      Inv(s, ttl) && Authenticate(again, ttl, 7).1 == Granted(admin, role, 0)
  {
  }

  // ----- nobody else is touched -----

  /** The answer to a token, without its effects. */
  function AnswerTo(s: State, ttl: Ttl, token: Token): Answer {
    Authenticate(s, ttl, token).1
  }

  // ----- what one step of a run does -----

  /** The lists differ in the token at most. */
  ghost predicate ListedButFor(s: State, t: State, token: Token) {
    && t.index.Keys == s.index.Keys
    && forall a :: a in s.index ==>
         t.index[a].expires == s.index[a].expires && t.index[a].tokens - {token} == s.index[a].tokens - {token}
  }

  /** What a request with the token leaves: it slides the session it is let in by, and ends the one it is refused. */
  ghost predicate Asked(s: State, ttl: Ttl, token: Token, t: State) {
    if !Live(s, token) then t == s
    else if AnswerTo(s, ttl, token) == Refused then
      t.sessions == s.sessions - {token} && ListedButFor(s, t, token)
    else
      && t == s.(sessions := t.sessions)
      && t.sessions.Keys == s.sessions.Keys
      && (forall u :: u in s.sessions && u != token ==> t.sessions[u] == s.sessions[u])
      && s.now < t.sessions[token].expires <= s.now + ttl.idle
      && t.sessions[token] == s.sessions[token].(expires := t.sessions[token].expires)
  }

  /** The effect of each step on the keys. */
  ghost predicate TakesEffect(s: State, ttl: Ttl, step: Step, t: State)
    requires Enabled(s, step)
  {
    && t.now == (if step.Wait? then step.to else s.now)
    && t.accounts == (if step.SetAccount? then s.accounts[step.admin := step.account] else s.accounts)
    && (step.Wait? || step.SetAccount? || step.BeginRevokeAll? ==> t.sessions == s.sessions && t.index == s.index)
    && (step.Login? ==>
          && t.sessions == s.sessions[step.token := Session(step.admin, s.now, s.now + ttl.idle)]
          && t.index == s.index[step.admin := Index(LiveIndex(s, step.admin) + {step.token}, s.now + ttl.abs)])
    && (step.Auth? ==> Asked(s, ttl, step.token, t))
    && (step.Logout? ==> t.sessions == s.sessions - {step.token} && ListedButFor(s, t, step.token))
    && (step.EndRevokeAll? ==> t.sessions == s.sessions - s.sweeps[step.id].tokens && t.sweeps == s.sweeps - {step.id}
                               && t.index == s.index - {s.sweeps[step.id].admin})
    && (step.BeginRevokeAll? ==> t.sweeps == s.sweeps[step.id := Sweep(step.admin, LiveIndex(s, step.admin))])
    && (!step.BeginRevokeAll? && !step.EndRevokeAll? ==> t.sweeps == s.sweeps)
  }

  /** The last step of a run acts on what the steps before it left. */
  lemma {:induction false} LastStepTakesEffect(s: State, ttl: Ttl, steps: seq<Step>, step: Step)
    requires ttl.idle > 0 && Valid(s, ttl, steps + [step])
    ensures Valid(s, ttl, steps)
    ensures var m := Run(s, ttl, steps);
      Enabled(m, step) && TakesEffect(m, ttl, step, Run(s, ttl, steps + [step]))
    decreases |steps|
  {
    if steps == [] {
      assert Run(Next(s, ttl, step), ttl, []) == Next(s, ttl, step);
    } else {
      assert (steps + [step])[1..] == steps[1..] + [step];
      LastStepTakesEffect(Next(s, ttl, steps[0]), ttl, steps[1..], step);
    }
  }

  /** Ending one session leaves every other as it was: stored, listed, and answered alike. */
  lemma RevokeSparesOthers(s: State, ttl: Ttl, admin: Admin, token: Token, t: Token)
    requires t != token
    ensures var n := Revoke(s, admin, token);
      && (t in n.sessions <==> t in s.sessions)
      && (t in s.sessions ==> n.sessions[t] == s.sessions[t])
      && (forall a :: t in LiveIndex(n, a) <==> t in LiveIndex(s, a))
      && AnswerTo(n, ttl, t) == AnswerTo(s, ttl, t)
  {
  }

  /** And it ends that one: no key, and nowhere listed for its admin. */
  lemma RevokeEndsOne(s: State, admin: Admin, token: Token)
    ensures var n := Revoke(s, admin, token);
      token !in n.sessions && token !in LiveIndex(n, admin) && n.accounts == s.accounts && n.now == s.now
  {
  }

  /** A login answers with its admin until it has been idle too long or the cap is reached, and spares all others. */
  lemma LoginIsLetInExactly(s: State, ttl: Ttl, token: Token, admin: Admin, later: int, t: Token)
    requires later >= s.now && t != token
    ensures var n := CreateSession(s, ttl, token, admin).(now := later);
      AnswerTo(n, ttl, token) ==
        if later < s.now + ttl.idle && later < s.now + ttl.abs && admin in s.accounts && !s.accounts[admin].disabled
        then Granted(admin, s.accounts[admin].role, s.now) else Refused
    ensures var n := CreateSession(s, ttl, token, admin);
      && (t in n.sessions <==> t in s.sessions) && (t in s.sessions ==> n.sessions[t] == s.sessions[t])
      && AnswerTo(n, ttl, t) == AnswerTo(s, ttl, t)
  {
  }

  /** Lists name only sessions of their admin. */
  ghost predicate ListsAreTheirs(s: State) {
    && (forall a, t :: a in s.index && t in s.index[a].tokens && t in s.sessions ==> s.sessions[t].admin == a)
    && (forall id, t :: id in s.sweeps && t in s.sweeps[id].tokens && t in s.sessions ==>
          s.sessions[t].admin == s.sweeps[id].admin)
    && (forall id :: id in s.sweeps ==> s.sweeps[id].tokens <= s.issued)
    && (forall a :: a in s.index ==> s.index[a].tokens <= s.issued)
    && s.sessions.Keys <= s.issued
  }

  /** The step is not the session's logout, a revoke-all of its admin, its account's end, or its own expiry. */
  predicate Spares(s: State, ttl: Ttl, step: Step, t: Token)
    requires t in s.sessions
  {
    match step
    case Wait(to) => to < s.sessions[t].expires && to < s.sessions[t].created + ttl.abs
    case Logout(_, token) => token != t
    case EndRevokeAll(id) => id in s.sweeps ==> s.sweeps[id].admin != s.sessions[t].admin
    case SetAccount(admin, account) => admin == s.sessions[t].admin ==> !account.disabled
    case _ => true
  }

  ghost predicate SparingRun(s: State, ttl: Ttl, steps: seq<Step>, t: Token)
    requires Valid(s, ttl, steps)
    decreases |steps|
  {
    steps != [] ==>
      && t in s.sessions && Spares(s, ttl, steps[0], t) && SparingRun(Next(s, ttl, steps[0]), ttl, steps[1..], t)
  }

  /** The session authenticates as the admin, and was created then. */
  predicate LetIn(s: State, ttl: Ttl, t: Token, admin: Admin, created: int) {
    Usable(s, ttl, t) && Active(s, admin) && s.sessions[t].admin == admin && s.sessions[t].created == created
  }

  lemma StepKeepsLists(s: State, ttl: Ttl, step: Step)
    requires ListsAreTheirs(s) && Enabled(s, step)
    ensures ListsAreTheirs(Next(s, ttl, step))
  {
  }

  lemma SparingStepLetsIn(s: State, ttl: Ttl, step: Step, t: Token, admin: Admin, created: int)
    requires ListsAreTheirs(s) && Enabled(s, step) && LetIn(s, ttl, t, admin, created) && Spares(s, ttl, step, t)
    requires ttl.idle > 0
    ensures LetIn(Next(s, ttl, step), ttl, t, admin, created)
  {
  }

  /**
   * A session lives on: in every run whose steps spare it, whatever else happens to its admin's other sessions and to
   * everyone else, it goes on being let in, with its account's current role.
   */
  lemma {:induction false} SparedSessionLivesOn(s: State, ttl: Ttl, steps: seq<Step>, t: Token, admin: Admin,
                                                created: int)
    requires ListsAreTheirs(s) && LetIn(s, ttl, t, admin, created) && ttl.idle > 0
    requires Valid(s, ttl, steps) && SparingRun(s, ttl, steps, t)
    ensures var n := Run(s, ttl, steps);
      && LetIn(n, ttl, t, admin, created) && admin in n.accounts
      && AnswerTo(n, ttl, t) == Granted(admin, n.accounts[admin].role, created)
    decreases |steps|
  {
    if steps == [] {
    } else {
      StepKeepsLists(s, ttl, steps[0]);
      SparingStepLetsIn(s, ttl, steps[0], t, admin, created);
      SparedSessionLivesOn(Next(s, ttl, steps[0]), ttl, steps[1..], t, admin, created);
    }
  }

  /** The list of an admin holds a new session until the session's cap, and no longer. */
  lemma ListLapsesExactly(s: State, ttl: Ttl, token: Token, admin: Admin, later: int)
    requires later >= s.now
    ensures var n := CreateSession(s, ttl, token, admin).(now := later);
      token in LiveIndex(n, admin) <==> later < s.now + ttl.abs
  {
  }

  /** A finished revoke-all has ended the sessions it had read, emptied its admin's list, and is over. */
  lemma RevokeAllEndsWhatItRead(s: State, id: int)
    requires id in s.sweeps
    ensures var n := SweepDelete(s, id);
      && (forall t :: t in n.sessions <==> t in s.sessions && t !in s.sweeps[id].tokens)
      && LiveIndex(n, s.sweeps[id].admin) == {} && n.sweeps.Keys == s.sweeps.Keys - {id}
      && n.accounts == s.accounts && n.now == s.now
  {
  }

  /** A finished revoke-all spares every session that is not its admin's. */
  lemma RevokeAllSparesOthers(s: State, ttl: Ttl, id: int, t: Token)
    requires ListsAreTheirs(s) && id in s.sweeps && t in s.sessions && s.sessions[t].admin != s.sweeps[id].admin
    ensures var n := SweepDelete(s, id);
      && t in n.sessions && n.sessions[t] == s.sessions[t] && AnswerTo(n, ttl, t) == AnswerTo(s, ttl, t)
      && (forall a :: a != s.sweeps[id].admin ==> LiveIndex(n, a) == LiveIndex(s, a))
  {
  }

  // ----- the service -----

  class AdminAuthService {
    const ttl: Ttl
    var now: int
    var sessions: map<Token, Session>
    var index: map<Admin, Index>
    var accounts: map<Admin, Account>
    ghost var issued: set<Token>

    constructor (ttl: Ttl, now: int)
      ensures Contents() == State(now, map[], map[], map[], map[], {}) && this.ttl == ttl
    {
      this.ttl, this.now := ttl, now;
      sessions, index, accounts, issued := map[], map[], map[], {};
    }

    /** No revoke-all is under way between two calls. */
    ghost function Contents(): State
      reads this
    {
      State(now, sessions, index, accounts, map[], issued)
    }

    method OpenSession(token: Token, admin: Admin)
      modifies this
      ensures Contents() == CreateSession(old(Contents()), ttl, token, admin)
    {
      var known := if admin in index && index[admin].expires > now then index[admin].tokens else {};
      sessions := sessions[token := Session(admin, now, now + ttl.idle)];
      index := index[admin := Index(known + {token}, now + ttl.abs)];
      issued := issued + {token};
    }

    method RevokeSession(admin: Admin, token: Token)
      modifies this
      ensures Contents() == Revoke(old(Contents()), admin, token)
    {
      sessions := sessions - {token};
      if admin in index && index[admin].expires > now && index[admin].tokens != {} {
        index := index[admin := index[admin].(tokens := index[admin].tokens - {token})];
      }
    }

    method Check(token: Token) returns (answer: Answer)
      modifies this
      ensures (Contents(), answer) == Authenticate(old(Contents()), ttl, token)
    {
      if token !in sessions || sessions[token].expires <= now {
        return Refused;
      }
      var st := sessions[token];
      var remaining := st.created + ttl.abs - now;
      if remaining <= 0 {
        RevokeSession(st.admin, token);
        return Refused;
      }
      if st.admin !in accounts || accounts[st.admin].disabled {
        RevokeSession(st.admin, token);
        return Refused;
      }
      var slide := ttl.idle;
      if remaining < slide {
        slide := remaining;
      }
      sessions := sessions[token := st.(expires := now + slide)];
      answer := Granted(st.admin, accounts[st.admin].role, st.created);
    }

    /** Undisturbed, the two commands together: read the index, then delete it and every session it names. */
    method RevokeAll(admin: Admin)
      modifies this
      ensures Contents() == SweepDelete(SweepRead(old(Contents()), 0, admin), 0)
      ensures old(Inv(Contents(), ttl)) ==> Inv(Contents(), ttl)
      ensures old(Inv(Contents(), ttl)) ==>
        forall t :: t in sessions && sessions[t].admin == admin ==> !Usable(Contents(), ttl, t)
    {
      var tokens := if admin in index && index[admin].expires > now then index[admin].tokens else {};
      if Inv(Contents(), ttl) {
        ghost var read := SweepRead(Contents(), 0, admin);
        assert forall t :: Usable(read, ttl, t) <==> Usable(Contents(), ttl, t);
        assert forall t :: Usable(read, ttl, t) ==> Indexed(Contents(), ttl, t) && Indexed(read, ttl, t);
        SweepDeleteKeepsInvExactly(read, ttl, 0);
        ghost var none: map<int, Sweep> := map[];
        assert none == SweepDelete(read, 0).sweeps;
      }
      sessions, index := sessions - tokens, index - {admin};
    }

    /** Disabling also ends the account's sessions. */
    method SetDisabled(admin: Admin, disabled: bool) returns (found: bool)
      requires Inv(Contents(), ttl)
      modifies this
      ensures Inv(Contents(), ttl)
      ensures found <==> admin in old(accounts)
      ensures found ==> accounts == old(accounts)[admin := Account(old(accounts)[admin].role, disabled)]
      ensures found && disabled ==>
        forall t :: t in sessions && sessions[t].admin == admin ==> !Usable(Contents(), ttl, t)
      ensures !found || !disabled ==> sessions == old(sessions) && index == old(index)
    {
      if admin !in accounts {
        return false;
      }
      accounts := accounts[admin := accounts[admin].(disabled := disabled)];
      assert forall t :: Usable(Contents(), ttl, t) ==>
               old(Usable(Contents(), ttl, t)) && old(Indexed(Contents(), ttl, t));
      found := true;
      if disabled {
        RevokeAll(admin);
      }
    }
  }
}
