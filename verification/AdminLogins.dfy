/** Logins that compare a password and open their session later, and password changes (service/admin_auth.go). */
module AdminLogins {
  import opened S = AdminSessions

  type Secret = int

  /** A login whose password was right, and which still has to open its session. */
  datatype Login = Compared(admin: Admin, secret: Secret)

  /** `secrets` holds the password each session was opened for; no operation reads it. */
  datatype World = World(sess: S.State, passwords: map<Admin, Secret>, logins: map<int, Login>,
                         secrets: map<Token, Secret>)

  datatype Step =
    | Compares(id: int, admin: Admin, secret: Secret)
    | Opens(id: int, token: Token)
    | GivesUp(id: int)
    | SetsPassword(admin: Admin, secret: Secret)
    | Does(step: S.Step)

  predicate Enabled(w: World, step: Step) {
    match step
    case Compares(id, admin, secret) =>
      id !in w.logins && admin in w.passwords && w.passwords[admin] == secret && Active(w.sess, admin)
    case Opens(id, token) => id in w.logins && token !in w.sess.issued
    case Does(step) => S.Enabled(w.sess, step) && !step.Login?
    case _ => true
  }

  function Next(w: World, ttl: Ttl, step: Step): World
    requires Enabled(w, step)
  {
    match step
    case Compares(id, admin, secret) => w.(logins := w.logins[id := Compared(admin, secret)])
    case Opens(id, token) =>
      w.(sess := CreateSession(w.sess, ttl, token, w.logins[id].admin), logins := w.logins - {id},
         secrets := w.secrets[token := w.logins[id].secret])
    case GivesUp(id) => w.(logins := w.logins - {id})
    case SetsPassword(admin, secret) => w.(passwords := w.passwords[admin := secret])
    case Does(step) => w.(sess := S.Next(w.sess, ttl, step))
  }

  ghost predicate Valid(w: World, ttl: Ttl, steps: seq<Step>)
    decreases |steps|
  {
    steps != [] ==> Enabled(w, steps[0]) && Valid(Next(w, ttl, steps[0]), ttl, steps[1..])
  }

  ghost function Run(w: World, ttl: Ttl, steps: seq<Step>): World
    requires Valid(w, ttl, steps)
    decreases |steps|
  {
    if steps == [] then w else Run(Next(w, ttl, steps[0]), ttl, steps[1..])
  }

  /** The effect of each step on logins, passwords and sessions. */
  ghost predicate TakesEffect(w: World, ttl: Ttl, step: Step, v: World)
    requires Enabled(w, step)
  {
    && v.logins == (if step.Compares? then w.logins[step.id := Compared(step.admin, step.secret)]
                    else if step.Opens? || step.GivesUp? then w.logins - {step.id} else w.logins)
    && v.passwords == (if step.SetsPassword? then w.passwords[step.admin := step.secret] else w.passwords)
    && v.secrets == (if step.Opens? then w.secrets[step.token := w.logins[step.id].secret] else w.secrets)
    && (if step.Does? then S.TakesEffect(w.sess, ttl, step.step, v.sess)
        else if step.Opens? then S.TakesEffect(w.sess, ttl, Login(step.token, w.logins[step.id].admin), v.sess)
        else v.sess == w.sess)
  }

  /** The last step of a run acts on what the steps before it left. */
  lemma {:induction false} LastStepActs(w: World, ttl: Ttl, steps: seq<Step>, step: Step)
    requires ttl.idle > 0 && Valid(w, ttl, steps + [step])
    ensures Valid(w, ttl, steps)
    ensures var m := Run(w, ttl, steps);
      Enabled(m, step) && TakesEffect(m, ttl, step, Run(w, ttl, steps + [step]))
    decreases |steps|
  {
    if steps == [] {
      assert Run(Next(w, ttl, step), ttl, []) == Next(w, ttl, step);
    } else {
      assert (steps + [step])[1..] == steps[1..] + [step];
      LastStepActs(Next(w, ttl, steps[0]), ttl, steps[1..], step);
    }
  }

  /** A compared password opens one session: of its admin, for that password, and then the login is spent. */
  lemma LoginIsSpent(w: World, ttl: Ttl, id: int, token: Token, other: Token)
    requires Enabled(w, Opens(id, token))
    ensures var v := Next(w, ttl, Opens(id, token));
      && OpenedFor(v, w.logins[id].admin, w.logins[id].secret, token)
      && !Enabled(v, Opens(id, other)) && v.passwords == w.passwords
  {
  }

  /** A password is compared with the one set, for an active account; changing it and giving up are always possible. */
  lemma ComparesExactly(w: World, id: int, admin: Admin, secret: Secret)
    ensures Enabled(w, Compares(id, admin, secret)) <==>
      id !in w.logins && admin in w.passwords && w.passwords[admin] == secret &&
      admin in w.sess.accounts && !w.sess.accounts[admin].disabled
    ensures Enabled(w, SetsPassword(admin, secret)) && Enabled(w, GivesUp(id))
  {
  }

  // ----- what an old password still opens -----

  /** A login with this password is about to open its session. */
  ghost predicate Pending(w: World, admin: Admin, x: Secret) {
    exists l :: l in w.logins && w.logins[l] == Compared(admin, x)
  }

  /** Token t is of a session of the admin opened for password x. */
  ghost predicate OpenedFor(w: World, admin: Admin, x: Secret, t: Token) {
    t in w.secrets && w.secrets[t] == x && t in w.sess.sessions && w.sess.sessions[t].admin == admin
  }

  /** The password is no longer set, and nobody is about to get in with it. */
  ghost predicate Changed(w: World, admin: Admin, x: Secret) {
    && (admin in w.passwords ==> w.passwords[admin] != x) && !Pending(w, admin, x)
    && w.sess.sessions.Keys <= w.sess.issued
  }

  /** What was opened for x is out of reach, or on the list of the revoke-all. */
  ghost predicate Doomed(w: World, ttl: Ttl, id: int, admin: Admin, x: Secret) {
    id in w.sess.sweeps && forall t :: OpenedFor(w, admin, x, t) ==> S.Doomed(w.sess, ttl, id, t)
  }

  ghost predicate Out(w: World, ttl: Ttl, admin: Admin, x: Secret) {
    forall t :: OpenedFor(w, admin, x, t) ==> Dead(w.sess, ttl, t)
  }

  ghost predicate Keeps(steps: seq<Step>, id: int, admin: Admin, x: Secret) {
    Does(EndRevokeAll(id)) !in steps && SetsPassword(admin, x) !in steps
  }

  lemma StepKeepsChanged(w: World, ttl: Ttl, step: Step, admin: Admin, x: Secret)
    requires Changed(w, admin, x) && Enabled(w, step) && step != SetsPassword(admin, x)
    ensures Changed(Next(w, ttl, step), admin, x)
    ensures forall t :: OpenedFor(Next(w, ttl, step), admin, x, t) ==> OpenedFor(w, admin, x, t)
  {
    var v := Next(w, ttl, step);
    forall l | l in v.logins
      ensures v.logins[l] != Compared(admin, x)
    {
      assert l in w.logins ==> w.logins[l] != Compared(admin, x);
    }
  }

  lemma SessionStepKeepsDoomed(s: S.State, ttl: Ttl, step: S.Step, id: int, t: Token)
    requires S.Doomed(s, ttl, id, t) && S.Enabled(s, step) && step != EndRevokeAll(id)
    ensures S.Doomed(S.Next(s, ttl, step), ttl, id, t)
  {
    assert [step][1..] == [];
    DoomedStaysDoomed(s, ttl, [step], id, t);
  }

  lemma SessionStepKeepsDead(s: S.State, ttl: Ttl, step: S.Step, t: Token)
    requires Dead(s, ttl, t) && S.Enabled(s, step)
    ensures Dead(S.Next(s, ttl, step), ttl, t)
  {
    assert [step][1..] == [];
    DeadStaysDead(s, ttl, [step], t);
  }

  /** The sessions' part of a step, if it has one. */
  function SessionStep(w: World, step: Step): S.Step
    requires Enabled(w, step)
  {
    match step
    case Opens(id, token) => S.Login(token, w.logins[id].admin)
    case Does(step) => step
    case _ => Wait(w.sess.now)
  }

  lemma StepIsASessionStep(w: World, ttl: Ttl, step: Step)
    requires Enabled(w, step)
    ensures S.Enabled(w.sess, SessionStep(w, step))
    ensures Next(w, ttl, step).sess == S.Next(w.sess, ttl, SessionStep(w, step))
  {
  }

  lemma StepKeepsDoomed(w: World, ttl: Ttl, step: Step, id: int, admin: Admin, x: Secret)
    requires Changed(w, admin, x) && Doomed(w, ttl, id, admin, x) && Enabled(w, step)
    requires step != SetsPassword(admin, x) && step != Does(EndRevokeAll(id))
    ensures Doomed(Next(w, ttl, step), ttl, id, admin, x)
  {
    StepKeepsChanged(w, ttl, step, admin, x);
    StepIsASessionStep(w, ttl, step);
    forall t | OpenedFor(Next(w, ttl, step), admin, x, t)
      ensures S.Doomed(Next(w, ttl, step).sess, ttl, id, t)
    {
      SessionStepKeepsDoomed(w.sess, ttl, SessionStep(w, step), id, t);
    }
  }

  lemma {:induction false} RunsKeepDoomed(w: World, ttl: Ttl, steps: seq<Step>, id: int, admin: Admin, x: Secret)
    requires Changed(w, admin, x) && Doomed(w, ttl, id, admin, x)
    requires Valid(w, ttl, steps) && Keeps(steps, id, admin, x)
    ensures Changed(Run(w, ttl, steps), admin, x) && Doomed(Run(w, ttl, steps), ttl, id, admin, x)
    decreases |steps|
  {
    if steps == [] {
    } else {
      assert steps[0] in steps && forall s :: s in steps[1..] ==> s in steps;
      StepKeepsChanged(w, ttl, steps[0], admin, x);
      StepKeepsDoomed(w, ttl, steps[0], id, admin, x);
      RunsKeepDoomed(Next(w, ttl, steps[0]), ttl, steps[1..], id, admin, x);
    }
  }

  lemma {:induction false} RunsKeepOut(w: World, ttl: Ttl, steps: seq<Step>, admin: Admin, x: Secret)
    requires Changed(w, admin, x) && Out(w, ttl, admin, x)
    requires Valid(w, ttl, steps) && SetsPassword(admin, x) !in steps
    ensures Out(Run(w, ttl, steps), ttl, admin, x)
    decreases |steps|
  {
    if steps == [] {
    } else {
      assert steps[0] in steps && forall s :: s in steps[1..] ==> s in steps;
      var v := Next(w, ttl, steps[0]);
      StepKeepsChanged(w, ttl, steps[0], admin, x);
      StepIsASessionStep(w, ttl, steps[0]);
      forall t | OpenedFor(v, admin, x, t)
        ensures Dead(v.sess, ttl, t)
      {
        SessionStepKeepsDead(w.sess, ttl, SessionStep(w, steps[0]), t);
      }
      RunsKeepOut(v, ttl, steps[1..], admin, x);
    }
  }

  // ----- which logins outlive a password change -----

  /** The password was replaced, and the revoke-all that follows has just read the index. */
  ghost predicate AfterChange(w: World, ttl: Ttl, id: int, admin: Admin, x: Secret) {
    && (admin in w.passwords ==> w.passwords[admin] != x)
    && w.secrets.Keys <= w.sess.issued
    && exists s :: S.Inv(s, ttl) && id !in s.sweeps && w.sess == SweepRead(s, id, admin)
  }

  /** The runs from there in which the password is not set back. */
  ghost predicate Follows(w: World, ttl: Ttl, id: int, admin: Admin, x: Secret, during: seq<Step>, after: seq<Step>) {
    && Valid(w, ttl, during) && Keeps(during, id, admin, x)
    && Enabled(Run(w, ttl, during), Does(EndRevokeAll(id)))
    && Valid(Next(Run(w, ttl, during), ttl, Does(EndRevokeAll(id))), ttl, after) && SetsPassword(admin, x) !in after
  }

  ghost function End(w: World, ttl: Ttl, id: int, admin: Admin, x: Secret, during: seq<Step>, after: seq<Step>): World
    requires Follows(w, ttl, id, admin, x, during, after)
  {
    Run(Next(Run(w, ttl, during), ttl, Does(EndRevokeAll(id))), ttl, after)
  }

  /** A session opened for the old password is let in after its revoke-all. */
  ghost predicate EscapesBy(w: World, ttl: Ttl, id: int, admin: Admin, x: Secret, during: seq<Step>, after: seq<Step>,
                            t: Token) {
    && Follows(w, ttl, id, admin, x, during, after)
    && OpenedFor(End(w, ttl, id, admin, x, during, after), admin, x, t)
    && Authenticate(End(w, ttl, id, admin, x, during, after).sess, ttl, t).1.Granted?
  }

  ghost predicate Escapes(w: World, ttl: Ttl, id: int, admin: Admin, x: Secret) {
    exists during, after, t :: EscapesBy(w, ttl, id, admin, x, during, after, t)
  }

  lemma NothingEscapes(w: World, ttl: Ttl, id: int, admin: Admin, x: Secret, during: seq<Step>, after: seq<Step>,
                       t: Token)
    requires AfterChange(w, ttl, id, admin, x) && !Pending(w, admin, x)
    ensures !EscapesBy(w, ttl, id, admin, x, during, after, t)
  {
    if EscapesBy(w, ttl, id, admin, x, during, after, t) {
      ReadDoomsAll(w, ttl, id, admin, x);
      RunsKeepDoomed(w, ttl, during, id, admin, x);
      var mid := Run(w, ttl, during);
      var done := Next(mid, ttl, Does(EndRevokeAll(id)));
      StepKeepsChanged(mid, ttl, Does(EndRevokeAll(id)), admin, x);
      forall u | OpenedFor(done, admin, x, u)
        ensures Dead(done.sess, ttl, u)
      {
        assert S.Doomed(mid.sess, ttl, id, u);
      }
      RunsKeepOut(done, ttl, after, admin, x);
      var end := Run(done, ttl, after);
      AuthenticatesExactly(end.sess, ttl, t);
      assert false;
    }
  }

  lemma ReadDoomsAll(w: World, ttl: Ttl, id: int, admin: Admin, x: Secret)
    requires AfterChange(w, ttl, id, admin, x) && !Pending(w, admin, x)
    ensures Changed(w, admin, x) && Doomed(w, ttl, id, admin, x)
  {
    var s :| S.Inv(s, ttl) && id !in s.sweeps && w.sess == SweepRead(s, id, admin);
    forall t | OpenedFor(w, admin, x, t)
      ensures S.Doomed(w.sess, ttl, id, t)
    {
      assert Usable(w.sess, ttl, t) ==> Usable(s, ttl, t);
    }
  }

  lemma {:induction false} FreshToken(issued: set<Token>) returns (t: Token)
    ensures forall u :: u in issued ==> u < t
  {
    if exists u :: u in issued {
      var u :| u in issued;
      var below := FreshToken(issued - {u});
      t := if below > u then below else u + 1;
      assert forall v :: v in issued ==> v == u || v in issued - {u};
    } else {
      t := 0;
    }
  }

  lemma TwoSteps(w: World, ttl: Ttl, a: Step, b: Step)
    requires Enabled(w, a) && Enabled(Next(w, ttl, a), b)
    ensures Valid(w, ttl, [a]) && Run(w, ttl, [a]) == Next(w, ttl, a)
    ensures Valid(w, ttl, [a, b]) && Run(w, ttl, [a, b]) == Next(Next(w, ttl, a), ttl, b)
  {
    assert [a][1..] == [] && [a, b][1..] == [b] && [b][1..] == [];
    assert Run(Next(w, ttl, a), ttl, [b]) == Next(Next(w, ttl, a), ttl, b);
  }

  /** A session opened while the revoke-all holds its list is not on it, and is there when the rest is deleted. */
  lemma OpenedSurvives(w: World, ttl: Ttl, id: int, admin: Admin, x: Secret, l: int, t: Token)
    requires AfterChange(w, ttl, id, admin, x) && l in w.logins && w.logins[l] == Compared(admin, x)
    requires forall u :: u in w.sess.issued ==> u < t
    ensures Enabled(w, Opens(l, t)) && Enabled(Next(w, ttl, Opens(l, t)), Does(EndRevokeAll(id)))
    ensures var v := Next(Next(w, ttl, Opens(l, t)), ttl, Does(EndRevokeAll(id)));
      && OpenedFor(v, admin, x, t) && v.sess.now == w.sess.now
      && v.sess.sessions[t] == Session(admin, w.sess.now, w.sess.now + ttl.idle)
  {
    var s :| S.Inv(s, ttl) && id !in s.sweeps && w.sess == SweepRead(s, id, admin);
    ListedBefore(w.sess, ttl, s, id, t);
  }

  /** The pending login opens its session while the revoke-all holds its list. */
  lemma PendingLoginEscapes(w: World, ttl: Ttl, id: int, admin: Admin, x: Secret)
    returns (during: seq<Step>, after: seq<Step>, t: Token)
    requires AfterChange(w, ttl, id, admin, x) && Pending(w, admin, x) && ttl.idle > 0 && ttl.abs > 0
    ensures EscapesBy(w, ttl, id, admin, x, during, after, t)
  {
    var l :| l in w.logins && w.logins[l] == Compared(admin, x);
    t := FreshToken(w.sess.issued);
    var open, enable, end := Opens(l, t), Does(SetAccount(admin, Account("viewer", false))), Does(EndRevokeAll(id));
    during, after := [open], [enable];
    OpenedSurvives(w, ttl, id, admin, x, l, t);
    var v := Next(Next(w, ttl, open), ttl, end);
    TwoSteps(w, ttl, open, end);
    TwoSteps(v, ttl, enable, enable);
    AuthenticatesExactly(Next(v, ttl, enable).sess, ttl, t);
  }

  lemma ListedBefore(sess: S.State, ttl: Ttl, s: S.State, id: int, t: Token)
    requires S.Inv(s, ttl) && id in sess.sweeps && sess == SweepRead(s, id, sess.sweeps[id].admin)
    requires forall u :: u in sess.issued ==> u < t
    ensures t !in sess.sweeps[id].tokens
  {
  }

  /**
   * Which logins outlive a password change: after the revoke-all that follows it, a session opened for the old
   * password is let in, in some run that does not set the password back, if and only if a login that compared the
   * old password was still to open its session when the revoke-all read the index.
   */
  lemma OldPasswordEscapesExactly(w: World, ttl: Ttl, id: int, admin: Admin, x: Secret)
    requires AfterChange(w, ttl, id, admin, x) && ttl.idle > 0 && ttl.abs > 0
    ensures Escapes(w, ttl, id, admin, x) <==> Pending(w, admin, x)
  {
    if Pending(w, admin, x) {
      var during, after, t := PendingLoginEscapes(w, ttl, id, admin, x);
    } else {
      forall during, after, t
        ensures !EscapesBy(w, ttl, id, admin, x, during, after, t)
      {
        NothingEscapes(w, ttl, id, admin, x, during, after, t);
      }
    }
  }
}
