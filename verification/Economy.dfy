/**
 * Balances, claimable rewards, store purchases, power-ups and premium time
 * (repository/user.go, repository/purchases.go, repository/powerup.go, repository/admin_users.go).
 * Each SQL statement or transaction is one step; a result outside a column's range fails it whole.
 */
module Economy {
  import opened Optional

  type Id = int

  const MAX_INT32 := 2147483647

  datatype User = User(coins: int, premium: Option<int>)

  /** A row of the inbox, identified by its position; (user, kind, ref) is unique. */
  datatype Reward = Reward(user: Id, kind: string, ref: string, coins: int, claimed: bool)

  datatype ProductKind = Coins | Premium

  /** A redeemed store token; (store, token) is unique. */
  datatype Purchase = Purchase(store: string, token: string, user: Id, kind: ProductKind, coins: int,
                               until: Option<int>)

  datatype State = State(users: map<Id, User>, rewards: seq<Reward>, purchases: seq<Purchase>,
                         inventory: map<(Id, string), nat>)

  datatype Outcome = Done | Already | Insufficient | NotFound | OwnedByOther | OutOfRange

  predicate Fits(n: int) {
    -MAX_INT32 - 1 <= n <= MAX_INT32
  }

  function SetCoins(s: State, u: Id, coins: int): State
    requires u in s.users
  {
    s.(users := s.users[u := s.users[u].(coins := coins)])
  }

  /** Touches no row, and reports no error, when there is no such user. */
  function Award(s: State, u: Id, amount: int): (State, Outcome) {
    if u !in s.users then (s, Done)
    else if !Fits(s.users[u].coins + amount) then (s, OutOfRange)
    else (SetCoins(s, u, s.users[u].coins + amount), Done)
  }

  function Spend(s: State, u: Id, amount: nat): (State, Outcome) {
    if u in s.users && s.users[u].coins >= amount then (SetCoins(s, u, s.users[u].coins - amount), Done)
    else (s, Insufficient)
  }

  predicate HasReward(rewards: seq<Reward>, u: Id, kind: string, ref: string) {
    exists r :: r in rewards && r.user == u && r.kind == kind && r.ref == ref
  }

  function CreateReward(s: State, u: Id, kind: string, ref: string, coins: int): (State, Outcome) {
    if u !in s.users then (s, NotFound)
    else if HasReward(s.rewards, u, kind, ref) then (s, Already)
    else (s.(rewards := s.rewards + [Reward(u, kind, ref, coins, false)]), Done)
  }

  /** One statement marks the reward and credits the coins. */
  function Claim(s: State, id: nat, u: Id): (State, Outcome) {
    if id >= |s.rewards| || s.rewards[id].user != u || s.rewards[id].claimed || u !in s.users then (s, NotFound)
    else
      var coins := s.users[u].coins + s.rewards[id].coins;
      if !Fits(coins) then (s, OutOfRange)
      else (SetCoins(s.(rewards := s.rewards[id := s.rewards[id].(claimed := true)]), u, coins), Done)
  }

  /** The position of a redeemed token, or the number of purchases. */
  function FindToken(ps: seq<Purchase>, store: string, token: string): (i: nat)
    ensures i <= |ps|
    ensures i < |ps| ==> ps[i].store == store && ps[i].token == token
    ensures forall j :: 0 <= j < i ==> !(ps[j].store == store && ps[j].token == token)
  {
    if ps == [] then 0
    else if ps[0].store == store && ps[0].token == token then 0
    else 1 + FindToken(ps[1..], store, token)
  }

  function CreditCoins(s: State, store: string, token: string, u: Id, coins: int): (State, Outcome) {
    var i := FindToken(s.purchases, store, token);
    if i < |s.purchases| then (s, if s.purchases[i].user == u then Already else OwnedByOther)
    else if u !in s.users then (s, NotFound)
    else if !Fits(s.users[u].coins + coins) then (s, OutOfRange)
    else (SetCoins(s.(purchases := s.purchases + [Purchase(store, token, u, Coins, coins, None)]), u,
                   s.users[u].coins + coins), Done)
  }

  /** GREATEST, which ignores NULL. */
  function Later(a: Option<int>, t: int): Option<int> {
    if a.Some? && a.value > t then a else Some(t)
  }

  function ApplyPremium(s: State, store: string, token: string, u: Id, until: int): (State, Outcome) {
    var i := FindToken(s.purchases, store, token);
    if i < |s.purchases| && s.purchases[i].user != u then (s, OwnedByOther)
    else if u !in s.users then (s, NotFound)
    else
      var ps := if i < |s.purchases|
        then s.purchases[i := s.purchases[i].(until := Later(s.purchases[i].until, until))]
        else s.purchases + [Purchase(store, token, u, Premium, 0, Some(until))];
      (s.(purchases := ps, users := s.users[u := s.users[u].(premium := Later(s.users[u].premium, until))]), Done)
  }

  function DeductOne(s: State, u: Id, item: string): (State, Outcome) {
    if (u, item) in s.inventory && s.inventory[(u, item)] > 0
    then (s.(inventory := s.inventory[(u, item) := s.inventory[(u, item)] - 1]), Done)
    else (s, Insufficient)
  }

  function PowerupPrice(item: string): Option<nat> {
    if item == "hint" then Some(10)
    else if item == "freeze" then Some(20)
    else if item == "extra_time" then Some(15)
    else if item == "shield" then Some(20)
    else None
  }

  /** Inventory first, coins second. */
  function UseItem(s: State, u: Id, item: string): (State, Outcome) {
    match PowerupPrice(item)
    case None => (s, NotFound)
    case Some(price) =>
      var (t, o) := DeductOne(s, u, item);
      if o == Done then (t, Done) else Spend(s, u, price)
  }

  function AdjustCoins(s: State, u: Id, delta: int): (State, Outcome) {
    if u !in s.users then (s, NotFound)
    else if !Fits(s.users[u].coins + delta) then (s, OutOfRange)
    else if s.users[u].coins + delta < 0 then (s, Insufficient)
    else (SetCoins(s, u, s.users[u].coins + delta), Done)
  }

  const DAY := 86_400_000_000_000

  function ExtendPremium(s: State, u: Id, days: int, now: int): (State, Outcome) {
    if u !in s.users then (s, NotFound)
    else
      var from := if s.users[u].premium.Some? && s.users[u].premium.value > now then s.users[u].premium.value else now;
      (s.(users := s.users[u := s.users[u].(premium := Some(from + days * 86_400_000_000_000))]), Done)
  }

  function RevokePremium(s: State, u: Id): (State, Outcome) {
    if u !in s.users then (s, NotFound) else (s.(users := s.users[u := s.users[u].(premium := None)]), Done)
  }

  datatype Step =
    | DoAward(user: Id, amount: nat)
    | DoSpend(user: Id, amount: nat)
    | DoCreate(user: Id, kind: string, ref: string, coins: nat)
    | DoClaim(id: nat, user: Id)
    | DoCredit(store: string, token: string, user: Id, coins: nat)
    | DoPremium(store: string, token: string, user: Id, until: int)
    | DoUse(user: Id, item: string)
    | DoAdjust(user: Id, delta: int)
    | DoExtend(user: Id, days: nat, now: int)
    | DoRevoke(user: Id)

  function Next(s: State, step: Step): (State, Outcome) {
    match step
    case DoAward(u, n) => Award(s, u, n)
    case DoSpend(u, n) => Spend(s, u, n)
    case DoCreate(u, kind, ref, coins) => CreateReward(s, u, kind, ref, coins)
    case DoClaim(id, u) => Claim(s, id, u)
    case DoCredit(store, token, u, coins) => CreditCoins(s, store, token, u, coins)
    case DoPremium(store, token, u, until) => ApplyPremium(s, store, token, u, until)
    case DoUse(u, item) => UseItem(s, u, item)
    case DoAdjust(u, delta) => AdjustCoins(s, u, delta)
    case DoExtend(u, days, now) => ExtendPremium(s, u, days, now)
    case DoRevoke(u) => RevokePremium(s, u)
  }

  function Run(s: State, steps: seq<Step>): State
    decreases |steps|
  {
    if steps == [] then s else Run(Next(s, steps[0]).0, steps[1..])
  }

  function Balance(s: State, u: Id): int {
    if u in s.users then s.users[u].coins else 0
  }

  // ----- what every run keeps -----

  ghost predicate UniqueTokens(ps: seq<Purchase>) {
    forall i, j :: 0 <= i < j < |ps| ==> !(ps[i].store == ps[j].store && ps[i].token == ps[j].token)
  }

  ghost predicate UniqueRewards(rewards: seq<Reward>) {
    forall i, j :: 0 <= i < j < |rewards| ==>
      !(rewards[i].user == rewards[j].user && rewards[i].kind == rewards[j].kind && rewards[i].ref == rewards[j].ref)
  }

  ghost predicate Inv(s: State) {
    && (forall u :: u in s.users ==> 0 <= s.users[u].coins <= MAX_INT32)
    && (forall i :: 0 <= i < |s.rewards| ==> s.rewards[i].coins >= 0 && s.rewards[i].user in s.users)
    && UniqueTokens(s.purchases) && UniqueRewards(s.rewards)
  }

  /** A step that reports no success changed nothing. */
  lemma FailureChangesNothing(s: State, step: Step)
    ensures Next(s, step).1 != Done ==> Next(s, step).0 == s
  {
  }

  lemma PremiumKeepsTokens(s: State, store: string, token: string, u: Id, until: int)
    requires UniqueTokens(s.purchases)
    ensures UniqueTokens(ApplyPremium(s, store, token, u, until).0.purchases)
  {
  }

  lemma CreateKeepsInv(s: State, u: Id, kind: string, ref: string, coins: nat)
    requires Inv(s)
    ensures Inv(CreateReward(s, u, kind, ref, coins).0)
  {
    assert forall i :: 0 <= i < |s.rewards| ==> s.rewards[i] in s.rewards;
  }

  lemma StepKeepsInv(s: State, step: Step)
    requires Inv(s)
    ensures Inv(Next(s, step).0)
  {
    match step
    case DoCreate(u, kind, ref, coins) => CreateKeepsInv(s, u, kind, ref, coins);
    case DoPremium(store, token, u, until) => PremiumKeepsTokens(s, store, token, u, until);
    case _ =>
  }

  /** In every run balances stay within 0 and the column's range, and no token or reward key is ever duplicated. */
  lemma {:induction false} RunsKeepInv(s: State, steps: seq<Step>)
    requires Inv(s)
    ensures Inv(Run(s, steps))
    decreases |steps|
  {
    if steps == [] {
    } else {
      StepKeepsInv(s, steps[0]);
      RunsKeepInv(Next(s, steps[0]).0, steps[1..]);
    }
  }

  function SuccessfulClaims(s: State, steps: seq<Step>, id: nat): nat
    decreases |steps|
  {
    if steps == [] then 0
    else
      var paid := steps[0].DoClaim? && steps[0].id == id && Next(s, steps[0]).1 == Done;
      (if paid then 1 else 0) + SuccessfulClaims(Next(s, steps[0]).0, steps[1..], id)
  }

  /** In every run a reward is paid at most once, and not at all if it was already claimed. */
  lemma {:induction false} RewardPaysAtMostOnce(s: State, steps: seq<Step>, id: nat)
    ensures SuccessfulClaims(s, steps, id) <= 1
    ensures id < |s.rewards| && s.rewards[id].claimed ==> SuccessfulClaims(s, steps, id) == 0
    decreases |steps|
  {
    if steps == [] {
    } else {
      RewardPaysAtMostOnce(Next(s, steps[0]).0, steps[1..], id);
    }
  }

  /** A successful claim pays its owner exactly the reward's coins and marks it; nobody else's claim succeeds. */
  lemma ClaimPaysTheOwner(s: State, id: nat, u: Id)
    ensures var (t, o) := Claim(s, id, u); o == Done ==>
      && id < |s.rewards| && s.rewards[id].user == u && !s.rewards[id].claimed
      && t.rewards == s.rewards[id := s.rewards[id].(claimed := true)]
      && (forall v :: Balance(t, v) == Balance(s, v) + if v == u then s.rewards[id].coins else 0)
  {
  }

  function SuccessfulCredits(s: State, steps: seq<Step>, store: string, token: string): nat
    decreases |steps|
  {
    if steps == [] then 0
    else
      var paid := steps[0].DoCredit? && steps[0].store == store && steps[0].token == token &&
        Next(s, steps[0]).1 == Done;
      (if paid then 1 else 0) + SuccessfulCredits(Next(s, steps[0]).0, steps[1..], store, token)
  }

  predicate Redeemed(s: State, store: string, token: string) {
    FindToken(s.purchases, store, token) < |s.purchases|
  }

  /** Rows are only appended, or rewritten with the same token and owner. */
  ghost predicate Extends(ps: seq<Purchase>, qs: seq<Purchase>) {
    |ps| <= |qs| && forall i :: 0 <= i < |ps| ==>
      qs[i].store == ps[i].store && qs[i].token == ps[i].token && qs[i].user == ps[i].user
  }

  lemma StepExtendsPurchases(s: State, step: Step)
    ensures Extends(s.purchases, Next(s, step).0.purchases)
  {
  }

  lemma TokenStaysRedeemed(s: State, step: Step, store: string, token: string)
    requires Redeemed(s, store, token)
    ensures var t := Next(s, step).0;
      && Redeemed(t, store, token)
      && FindToken(t.purchases, store, token) == FindToken(s.purchases, store, token)
      && t.purchases[FindToken(t.purchases, store, token)].user ==
        s.purchases[FindToken(s.purchases, store, token)].user
  {
    StepExtendsPurchases(s, step);
    var t := Next(s, step).0;
    var i, j := FindToken(s.purchases, store, token), FindToken(t.purchases, store, token);
    assert t.purchases[i].store == store && t.purchases[i].token == token;
  }

  /** In every run a purchase token credits coins at most once, and a token already redeemed never does. */
  lemma {:induction false} TokenPaysAtMostOnce(s: State, steps: seq<Step>, store: string, token: string)
    ensures SuccessfulCredits(s, steps, store, token) <= 1
    ensures Redeemed(s, store, token) ==> SuccessfulCredits(s, steps, store, token) == 0
    decreases |steps|
  {
    if steps == [] {
    } else {
      var t := Next(s, steps[0]).0;
      TokenPaysAtMostOnce(t, steps[1..], store, token);
      if Redeemed(s, store, token) {
        TokenStaysRedeemed(s, steps[0], store, token);
      } else if steps[0].DoCredit? && steps[0].store == store && steps[0].token == token
        && Next(s, steps[0]).1 == Done {
        assert t.purchases[|s.purchases|].store == store && t.purchases[|s.purchases|].token == token;
        assert Redeemed(t, store, token);
      }
    }
  }

  // ----- premium time -----

  ghost predicate NoEarlier(a: Option<int>, b: Option<int>) {
    a.Some? ==> b.Some? && b.value >= a.value
  }

  function PremiumOf(s: State, u: Id): Option<int> {
    if u in s.users then s.users[u].premium else None
  }

  lemma StepKeepsPremium(s: State, step: Step, u: Id)
    requires step != DoRevoke(u)
    ensures NoEarlier(PremiumOf(s, u), PremiumOf(Next(s, step).0, u))
  {
  }

  /** In every run without an explicit revoke of u's premium, its end never moves back. */
  lemma {:induction false} PremiumOnlyMovesForward(s: State, steps: seq<Step>, u: Id)
    requires DoRevoke(u) !in steps
    ensures NoEarlier(PremiumOf(s, u), PremiumOf(Run(s, steps), u))
    decreases |steps|
  {
    if steps == [] {
    } else {
      assert steps[0] in steps && forall x :: x in steps[1..] ==> x in steps;
      StepKeepsPremium(s, steps[0], u);
      PremiumOnlyMovesForward(Next(s, steps[0]).0, steps[1..], u);
    }
  }

  const PREMIUM_PERIOD := 30 * DAY
  const REVERIFY_WINDOW := 3 * DAY

  /** What a verified subscription receipt is worth at `now`. */
  function PremiumUntil(purchaseTime: int, now: int): int {
    var start := if purchaseTime > now then now else purchaseTime;
    var until := start + PREMIUM_PERIOD;
    if until < now + REVERIFY_WINDOW then now + REVERIFY_WINDOW else until
  }

  /**
   * A receipt never buys more than the period from now, however its clock was set, nor less than the
   * reverify window; an honest recent one buys the period from its purchase; reporting it later never
   * shortens what it gives.
   */
  lemma PremiumUntilIsBounded(purchaseTime: int, now: int, later: int)
    requires now <= later
    ensures now + 3 * 86_400_000_000_000 <= PremiumUntil(purchaseTime, now) <= now + 30 * 86_400_000_000_000
    ensures now - 27 * 86_400_000_000_000 <= purchaseTime <= now ==>
      PremiumUntil(purchaseTime, now) == purchaseTime + 30 * 86_400_000_000_000
    ensures purchaseTime < now - 27 * 86_400_000_000_000 ==>
      PremiumUntil(purchaseTime, now) == now + 3 * 86_400_000_000_000
    ensures purchaseTime > now ==> PremiumUntil(purchaseTime, now) == now + 30 * 86_400_000_000_000
    ensures PremiumUntil(purchaseTime, now) <= PremiumUntil(purchaseTime, later)
  {
  }

  /** A power-up is paid for once: out of the inventory if any is left, else with its price, else not used. */
  lemma UseItemPaysExactlyOnce(s: State, u: Id, item: string)
    ensures var (t, o) := UseItem(s, u, item);
      var owned := (u, item) in s.inventory && s.inventory[(u, item)] > 0;
      var price := PowerupPrice(item);
      && (o == Done <==> price.Some? && (owned || (u in s.users && Balance(s, u) >= price.value)))
      && (o == Done && owned ==> t == s.(inventory := s.inventory[(u, item) := s.inventory[(u, item)] - 1]))
      && (o == Done && !owned ==> t.inventory == s.inventory && Balance(t, u) == Balance(s, u) - price.value)
      && (o != Done ==> t == s)
      && (o == NotFound <==> price.None?)
      && (o == Insufficient <==> price.Some? && !owned && !(u in s.users && Balance(s, u) >= price.value))
  {
  }
}
