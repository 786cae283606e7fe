/**
 * What each coin operation does to whom, and conservation (repository/user.go, repository/purchases.go,
 * repository/powerup.go, repository/admin_users.go).
 */
module Ledger {
  import opened Optional
  import opened Economy

  // ----- when an operation succeeds -----

  predicate Owns(s: State, u: Id, item: string) {
    (u, item) in s.inventory && s.inventory[(u, item)] > 0
  }

  /** The price list. */
  const PRICES := map["hint" := 10, "freeze" := 20, "extra_time" := 15, "shield" := 20]

  lemma PricesAreListed(item: string)
    ensures PowerupPrice(item) == if item in PRICES then Some(PRICES[item]) else None
  {
  }

  predicate Unused(s: State, store: string, token: string) {
    forall p :: p in s.purchases ==> !(p.store == store && p.token == token)
  }

  predicate UsedBy(s: State, store: string, token: string, u: Id) {
    exists p :: p in s.purchases && p.store == store && p.token == token && p.user == u
  }

  /** The balance with n more coins fits the column. */
  predicate Holds(s: State, u: Id, n: int) {
    u in s.users && -0x8000_0000 <= s.users[u].coins + n < 0x8000_0000
  }

  /** What each operation asks for. */
  ghost predicate CanDo(s: State, step: Step) {
    match step
    case DoAward(u, n) => u in s.users ==> Holds(s, u, n)
    case DoSpend(u, n) => u in s.users && s.users[u].coins >= n
    case DoCreate(u, kind, ref, _) =>
      u in s.users && forall r :: r in s.rewards ==> !(r.user == u && r.kind == kind && r.ref == ref)
    case DoClaim(id, u) =>
      id < |s.rewards| && s.rewards[id].user == u && !s.rewards[id].claimed && Holds(s, u, s.rewards[id].coins)
    case DoCredit(store, token, u, n) => Unused(s, store, token) && Holds(s, u, n)
    case DoPremium(store, token, u, _) =>
      u in s.users && forall p :: p in s.purchases && p.store == store && p.token == token ==> p.user == u
    case DoUse(u, item) =>
      item in PRICES && (Owns(s, u, item) || (u in s.users && s.users[u].coins >= PRICES[item]))
    case DoAdjust(u, d) => Holds(s, u, d) && s.users[u].coins + d >= 0
    case DoExtend(u, _, _) => u in s.users
    case DoRevoke(u) => u in s.users
  }

  lemma TokenIsFoundExactly(s: State, store: string, token: string)
    ensures FindToken(s.purchases, store, token) == |s.purchases| <==> Unused(s, store, token)
  {
    var i := FindToken(s.purchases, store, token);
    if i < |s.purchases| {
      assert s.purchases[i] in s.purchases;
    }
  }

  /** With one row a token, its owner is the one found. */
  lemma OwnerIsFound(s: State, store: string, token: string, u: Id)
    requires UniqueTokens(s.purchases)
    ensures var i := FindToken(s.purchases, store, token);
      i < |s.purchases| && s.purchases[i].user == u <==> UsedBy(s, store, token, u)
  {
    var i := FindToken(s.purchases, store, token);
    if UsedBy(s, store, token, u) {
      var p :| p in s.purchases && p.store == store && p.token == token && p.user == u;
      var j :| 0 <= j < |s.purchases| && s.purchases[j] == p;
      assert i == j;
    }
  }

  lemma PremiumIsDoneExactly(s: State, store: string, token: string, u: Id, until: int)
    requires UniqueTokens(s.purchases)
    ensures ApplyPremium(s, store, token, u, until).1 == Done <==> CanDo(s, DoPremium(store, token, u, until))
  {
    var i := FindToken(s.purchases, store, token);
    if i < |s.purchases| {
      assert s.purchases[i] in s.purchases;
      forall p | p in s.purchases && p.store == store && p.token == token
        ensures p == s.purchases[i]
      {
        var j :| 0 <= j < |s.purchases| && s.purchases[j] == p;
        assert i == j;
      }
    }
  }

  /** An operation is done exactly if what it asks for is there. */
  lemma DoneExactly(s: State, step: Step)
    requires UniqueTokens(s.purchases)
    ensures Next(s, step).1 == Done <==> CanDo(s, step)
  {
    match step
    case DoCredit(store, token, _, _) => TokenIsFoundExactly(s, store, token);
    case DoPremium(store, token, u, until) => PremiumIsDoneExactly(s, store, token, u, until);
    case DoUse(_, item) => PricesAreListed(item);
    case _ =>
  }

  // ----- whose, and how much -----

  /** The coins a done operation moves for u. */
  function Amount(s: State, step: Step, u: Id): int {
    match step
    case DoAward(v, n) => if v == u && u in s.users then n else 0
    case DoSpend(v, n) => if v == u then -(n as int) else 0
    case DoClaim(id, v) => if v == u && id < |s.rewards| then s.rewards[id].coins else 0
    case DoCredit(_, _, v, n) => if v == u then n else 0
    case DoUse(v, item) => if v == u && !Owns(s, u, item) && item in PRICES then -(PRICES[item] as int) else 0
    case DoAdjust(v, d) => if v == u then d else 0
    case _ => 0
  }

  /** One step moves each balance by its amount, or not at all. */
  lemma StepMoves(s: State, step: Step, u: Id)
    ensures Balance(Next(s, step).0, u) == Balance(s, u) + if Next(s, step).1 == Done then Amount(s, step, u) else 0
  {
    match step
    case DoUse(_, item) => PricesAreListed(item);
    case _ =>
  }

  /** What the done operations of a run move for u, by their own arguments. */
  function Total(s: State, steps: seq<Step>, u: Id): int
    decreases |steps|
  {
    if steps == [] then 0
    else
      (if Next(s, steps[0]).1 == Done then Amount(s, steps[0], u) else 0) + Total(Next(s, steps[0]).0, steps[1..], u)
  }

  /**
   * Conservation: over any run a balance is what it was, plus the awards, the adjustments, the coins of the rewards
   * claimed and of the tokens redeemed, minus what was spent and paid for power-ups.
   */
  lemma {:induction false} CoinsAreConserved(s: State, steps: seq<Step>, u: Id)
    ensures Balance(Run(s, steps), u) == Balance(s, u) + Total(s, steps, u)
    decreases |steps|
  {
    if steps == [] {
    } else {
      StepMoves(s, steps[0], u);
      CoinsAreConserved(Next(s, steps[0]).0, steps[1..], u);
    }
  }

  // ----- the rows behind the coins -----

  function ClaimedCoins(rewards: seq<Reward>, u: Id): int {
    if rewards == [] then 0
    else
      var r := rewards[|rewards| - 1];
      ClaimedCoins(rewards[..|rewards| - 1], u) + if r.user == u && r.claimed then r.coins else 0
  }

  function BoughtCoins(ps: seq<Purchase>, u: Id): int {
    if ps == [] then 0
    else
      var p := ps[|ps| - 1];
      BoughtCoins(ps[..|ps| - 1], u) + if p.user == u then p.coins else 0
  }

  /** The coins u's claimed rewards and redeemed tokens are worth. */
  function Backing(s: State, u: Id): int {
    ClaimedCoins(s.rewards, u) + BoughtCoins(s.purchases, u)
  }

  lemma {:induction false} ClaimingOne(rewards: seq<Reward>, id: nat, u: Id)
    requires id < |rewards| && !rewards[id].claimed
    ensures ClaimedCoins(rewards[id := rewards[id].(claimed := true)], u)
      == ClaimedCoins(rewards, u) + if rewards[id].user == u then rewards[id].coins else 0
  {
    var n := |rewards| - 1;
    var marked := rewards[id := rewards[id].(claimed := true)];
    if id < n {
      assert marked[..n] == rewards[..n][id := rewards[id].(claimed := true)];
      ClaimingOne(rewards[..n], id, u);
    } else {
      assert marked[..n] == rewards[..n];
    }
  }

  lemma {:induction false} SameCoinsBought(ps: seq<Purchase>, i: nat, p: Purchase, u: Id)
    requires i < |ps| && p.user == ps[i].user && p.coins == ps[i].coins
    ensures BoughtCoins(ps[i := p], u) == BoughtCoins(ps, u)
  {
    var n := |ps| - 1;
    if i < n {
      assert ps[i := p][..n] == ps[..n][i := p];
      SameCoinsBought(ps[..n], i, p, u);
    } else {
      assert ps[i := p][..n] == ps[..n];
    }
  }

  lemma ClaimBacks(s: State, id: nat, v: Id, u: Id)
    ensures Backing(Claim(s, id, v).0, u) ==
      Backing(s, u) + if Claim(s, id, v).1 == Done then Amount(s, DoClaim(id, v), u) else 0
  {
    if Claim(s, id, v).1 == Done {
      ClaimingOne(s.rewards, id, u);
    }
  }

  lemma CreateBacks(s: State, v: Id, kind: string, ref: string, coins: int, u: Id)
    ensures Backing(CreateReward(s, v, kind, ref, coins).0, u) == Backing(s, u)
  {
    assert (s.rewards + [Reward(v, kind, ref, coins, false)])[..|s.rewards|] == s.rewards;
  }

  lemma CreditBacks(s: State, store: string, token: string, v: Id, coins: nat, u: Id)
    ensures Backing(CreditCoins(s, store, token, v, coins).0, u) == Backing(s, u) +
      if CreditCoins(s, store, token, v, coins).1 == Done then Amount(s, DoCredit(store, token, v, coins), u) else 0
  {
    assert (s.purchases + [Purchase(store, token, v, Coins, coins, None)])[..|s.purchases|] == s.purchases;
  }

  lemma PremiumBacks(s: State, store: string, token: string, v: Id, until: int, u: Id)
    ensures Backing(ApplyPremium(s, store, token, v, until).0, u) == Backing(s, u)
  {
    var i := FindToken(s.purchases, store, token);
    if i < |s.purchases| {
      SameCoinsBought(s.purchases, i, s.purchases[i].(until := Later(s.purchases[i].until, until)), u);
    } else {
      assert (s.purchases + [Purchase(store, token, v, Premium, 0, Some(until))])[..|s.purchases|] == s.purchases;
    }
  }

  /** Every claimed or bought coin has its row: the rows grow by what claims and credits move, and by nothing else. */
  lemma RowsBackTheCoins(s: State, step: Step, u: Id)
    ensures Backing(Next(s, step).0, u) == Backing(s, u) +
      if (step.DoClaim? || step.DoCredit?) && Next(s, step).1 == Done then Amount(s, step, u) else 0
  {
    match step
    case DoCreate(v, kind, ref, coins) => CreateBacks(s, v, kind, ref, coins, u);
    case DoClaim(id, v) => ClaimBacks(s, id, v, u);
    case DoCredit(store, token, v, coins) => CreditBacks(s, store, token, v, coins, u);
    case DoPremium(store, token, v, until) => PremiumBacks(s, store, token, v, until, u);
    case _ =>
  }

  // ----- one operation -----

  /** Someone else's account is as it was. */
  ghost predicate OthersKept(s: State, t: State, u: Id) {
    t.users.Keys == s.users.Keys && forall v :: v in s.users && v != u ==> t.users[v] == s.users[v]
  }

  /**
   * A coin pack is credited exactly if its token is unused, the user exists and the sum fits: the balance rises by the
   * pack's coins, nobody else's account moves, and the token's row names that user and those coins. A token in use
   * is the same user's or another's.
   */
  lemma CreditPaysOnceExactly(s: State, store: string, token: string, u: Id, coins: nat)
    requires UniqueTokens(s.purchases)
    ensures var (t, o) := CreditCoins(s, store, token, u, coins);
      && (o == Done <==> Unused(s, store, token) && Holds(s, u, coins))
      && (o == Done ==>
            && Balance(t, u) == Balance(s, u) + coins && PremiumOf(t, u) == PremiumOf(s, u) && OthersKept(s, t, u)
            && |t.purchases| == |s.purchases| + 1 && s.purchases <= t.purchases
            && t.purchases[|s.purchases|] == Purchase(store, token, u, Coins, coins, None)
            && t.rewards == s.rewards && t.inventory == s.inventory)
      && (o != Done ==> t == s)
      && (o == Already <==> UsedBy(s, store, token, u))
      && (o == OwnedByOther <==> !Unused(s, store, token) && !UsedBy(s, store, token, u))
      && (o == NotFound <==> Unused(s, store, token) && u !in s.users)
  {
    TokenIsFoundExactly(s, store, token);
    OwnerIsFound(s, store, token, u);
    var i := FindToken(s.purchases, store, token);
    if i < |s.purchases| {
      assert s.purchases[i] in s.purchases;
    }
  }

  /** The later of an end of premium, if there is one, and a moment. */
  function LaterEnd(end: Option<int>, t: int): int {
    match end
    case None => t
    case Some(e) => if e < t then t else e
  }

  /** The end of a token's row. */
  function EndOf(s: State, store: string, token: string): Option<int> {
    var i := FindToken(s.purchases, store, token);
    if i < |s.purchases| then s.purchases[i].until else None
  }

  /**
   * Premium: the user's end becomes the later of theirs and the delivered one, and so does the token's row. Nobody
   * else's account moves, no coins do, and the row keeps its owner and coins.
   */
  lemma PremiumMovesTheEnd(s: State, store: string, token: string, u: Id, until: int)
    requires UniqueTokens(s.purchases)
    ensures var (t, o) := ApplyPremium(s, store, token, u, until);
      && (o == Done ==>
            && PremiumOf(t, u) == Some(LaterEnd(PremiumOf(s, u), until)) && Balance(t, u) == Balance(s, u)
            && OthersKept(s, t, u) && Extends(s.purchases, t.purchases) && UsedBy(t, store, token, u)
            && EndOf(t, store, token) == Some(LaterEnd(EndOf(s, store, token), until))
            && (forall i :: 0 <= i < |s.purchases| ==> t.purchases[i].coins == s.purchases[i].coins)
            && t.rewards == s.rewards && t.inventory == s.inventory)
      && (o == OwnedByOther <==> !Unused(s, store, token) && !UsedBy(s, store, token, u))
      && (o == NotFound <==> u !in s.users && (Unused(s, store, token) || UsedBy(s, store, token, u)))
      && (o != Done ==> t == s)
  {
    TokenIsFoundExactly(s, store, token);
    OwnerIsFound(s, store, token, u);
    var t, o := ApplyPremium(s, store, token, u, until).0, ApplyPremium(s, store, token, u, until).1;
    var i := FindToken(s.purchases, store, token);
    if o == Done {
      assert t.purchases[i].store == store && t.purchases[i].token == token && t.purchases[i].user == u;
      assert t.purchases[i] in t.purchases;
      assert FindToken(t.purchases, store, token) == i;
    }
  }

  /** An admin's days are added to what is left of premium, or to now; revoking ends it; nothing else moves. */
  lemma AdminsMoveThePremium(s: State, u: Id, days: int, now: int)
    requires u in s.users
    ensures var t := ExtendPremium(s, u, days, now).0;
      && PremiumOf(t, u) == Some(LaterEnd(PremiumOf(s, u), now) + days * (24 * 3_600_000_000_000))
      && Balance(t, u) == Balance(s, u) && OthersKept(s, t, u) && t == s.(users := t.users)
    ensures var t := RevokePremium(s, u).0;
      && PremiumOf(t, u) == None && Balance(t, u) == Balance(s, u) && OthersKept(s, t, u) && t == s.(users := t.users)
    ensures ExtendPremium(s, u, days, now).1 == RevokePremium(s, u).1 == Done
  {
  }

  lemma AdminsNeedTheUser(s: State, u: Id, days: int, now: int)
    requires u !in s.users
    ensures ExtendPremium(s, u, days, now) == RevokePremium(s, u) == (s, NotFound)
  {
  }

  /** Which tables and which accounts a step may touch. */
  lemma StepTouchesOnly(s: State, step: Step, v: Id)
    ensures var t := Next(s, step).0;
      && (v in t.users <==> v in s.users)
      && (v in s.users && v != step.user ==> t.users[v] == s.users[v])
      && (v in s.users && !(step.DoPremium? || step.DoExtend? || step.DoRevoke?) ==>
            t.users[v].premium == s.users[v].premium)
      && (!(step.DoCreate? || step.DoClaim?) ==> t.rewards == s.rewards)
      && (!(step.DoCredit? || step.DoPremium?) ==> t.purchases == s.purchases)
      && (!step.DoUse? ==> t.inventory == s.inventory)
  {
  }

  /** Why an operation was refused. */
  lemma RefusalsTellWhy(s: State, u: Id, n: nat, d: int, id: nat, item: string)
    ensures Award(s, u, n).1 == OutOfRange <==> u in s.users && !Holds(s, u, n)
    ensures Spend(s, u, n).1 == Insufficient <==> !(u in s.users && s.users[u].coins >= n)
    ensures AdjustCoins(s, u, d).1 == NotFound <==> u !in s.users
    ensures AdjustCoins(s, u, d).1 == Insufficient <==> Holds(s, u, d) && s.users[u].coins + d < 0
    ensures Claim(s, id, u).1 == OutOfRange <==>
      id < |s.rewards| && s.rewards[id].user == u && !s.rewards[id].claimed && u in s.users &&
      !Holds(s, u, s.rewards[id].coins)
    ensures Claim(s, id, u).1 == NotFound <==>
      !(id < |s.rewards| && s.rewards[id].user == u && !s.rewards[id].claimed && u in s.users)
    ensures DeductOne(s, u, item).1 == Insufficient <==> !Owns(s, u, item)
  {
  }

  /** A created reward is unclaimed and worth its coins; a second one for the same key is none. */
  lemma CreateAddsOneExactly(s: State, u: Id, kind: string, ref: string, coins: int)
    ensures var (t, o) := CreateReward(s, u, kind, ref, coins);
      && (o == Done <==> u in s.users && !HasReward(s.rewards, u, kind, ref))
      && (o == Done ==> t == s.(rewards := t.rewards) && s.rewards <= t.rewards && |t.rewards| == |s.rewards| + 1)
      && (o == Done ==> var r := t.rewards[|s.rewards|];
            r.user == u && r.kind == kind && r.ref == ref && r.coins == coins && !r.claimed)
      && (o == Already <==> u in s.users && HasReward(s.rewards, u, kind, ref))
      && (o == NotFound <==> u !in s.users)
      && (o != Done ==> t == s)
  {
  }
}
