/** The economy's tables as the repositories and services update them in place. */
module CoinStore {
  import opened Optional
  import opened Economy

  class Store {
    var users: map<Id, User>
    var rewards: seq<Reward>
    var purchases: seq<Purchase>
    var inventory: map<(Id, string), nat>

    ghost function Contents(): State
      reads this
    {
      State(users, rewards, purchases, inventory)
    }

    method AwardCoins(u: Id, amount: int) returns (o: Outcome)
      modifies this`users
      ensures (Contents(), o) == Award(old(Contents()), u, amount)
    {
      if u in users {
        if !Fits(users[u].coins + amount) {
          return OutOfRange;
        }
        users := users[u := users[u].(coins := users[u].coins + amount)];
      }
      o := Done;
    }

    /** The balance test is part of the UPDATE. */
    method SpendCoins(u: Id, amount: nat) returns (o: Outcome)
      modifies this`users
      ensures (Contents(), o) == Spend(old(Contents()), u, amount)
    {
      o := Insufficient;
      if u in users && users[u].coins >= amount {
        users := users[u := users[u].(coins := users[u].coins - amount)];
        o := Done;
      }
    }

    method CreateInboxReward(u: Id, kind: string, ref: string, coins: int) returns (o: Outcome)
      modifies this`rewards
      ensures (Contents(), o) == CreateReward(old(Contents()), u, kind, ref, coins)
    {
      if u !in users {
        return NotFound;
      }
      for i := 0 to |rewards|
        invariant rewards == old(rewards)
        invariant forall j :: 0 <= j < i ==> !(rewards[j].user == u && rewards[j].kind == kind && rewards[j].ref == ref)
      {
        if rewards[i].user == u && rewards[i].kind == kind && rewards[i].ref == ref {
          assert rewards[i] in rewards;
          return Already;
        }
      }
      assert !HasReward(rewards, u, kind, ref);
      rewards := rewards + [Reward(u, kind, ref, coins, false)];
      o := Done;
    }

    method ClaimReward(id: nat, u: Id) returns (o: Outcome)
      modifies this`users, this`rewards
      ensures (Contents(), o) == Claim(old(Contents()), id, u)
    {
      if id >= |rewards| || rewards[id].user != u || rewards[id].claimed || u !in users {
        return NotFound;
      }
      var coins := users[u].coins + rewards[id].coins;
      if !Fits(coins) {
        return OutOfRange;
      }
      rewards := rewards[id := rewards[id].(claimed := true)];
      users := users[u := users[u].(coins := coins)];
      o := Done;
    }

    /** One transaction: the token's row and the credit, or neither. */
    method RedeemCoins(store: string, token: string, u: Id, coins: int) returns (o: Outcome)
      modifies this`users, this`purchases
      ensures (Contents(), o) == CreditCoins(old(Contents()), store, token, u, coins)
    {
      var i := FindToken(purchases, store, token);
      if i < |purchases| {
        return if purchases[i].user == u then Already else OwnedByOther;
      }
      if u !in users {
        return NotFound;
      }
      if !Fits(users[u].coins + coins) {
        return OutOfRange;
      }
      purchases := purchases + [Purchase(store, token, u, Coins, coins, None)];
      users := users[u := users[u].(coins := users[u].coins + coins)];
      o := Done;
    }

    method RedeemPremium(store: string, token: string, u: Id, until: int) returns (o: Outcome)
      modifies this`users, this`purchases
      ensures (Contents(), o) == ApplyPremium(old(Contents()), store, token, u, until)
    {
      var i := FindToken(purchases, store, token);
      if i < |purchases| && purchases[i].user != u {
        return OwnedByOther;
      }
      if u !in users {
        return NotFound;
      }
      if i < |purchases| {
        purchases := purchases[i := purchases[i].(until := Later(purchases[i].until, until))];
      } else {
        purchases := purchases + [Purchase(store, token, u, Premium, 0, Some(until))];
      }
      users := users[u := users[u].(premium := Later(users[u].premium, until))];
      o := Done;
    }

    /** VerifyBazaar once the receipt is accepted: coins once a token, premium only ever later. */
    method Deliver(store: string, token: string, u: Id, kind: ProductKind, coins: nat, purchaseTime: int, now: int)
      returns (o: Outcome)
      modifies this`users, this`purchases
      ensures (Contents(), o) == if kind == Coins
        then CreditCoins(old(Contents()), store, token, u, coins)
        else ApplyPremium(old(Contents()), store, token, u, PremiumUntil(purchaseTime, now))
      ensures o == Done && kind == Premium ==>
        PremiumOf(Contents(), u).Some? && PremiumOf(Contents(), u).value >= now + REVERIFY_WINDOW
    {
      if kind == Coins {
        o := RedeemCoins(store, token, u, coins);
        return;
      }
      var start := purchaseTime;
      if start > now {
        start := now;
      }
      var until := start + PREMIUM_PERIOD;
      if until < now + REVERIFY_WINDOW {
        until := now + REVERIFY_WINDOW;
      }
      o := RedeemPremium(store, token, u, until);
    }

    method TakeOne(u: Id, item: string) returns (o: Outcome)
      modifies this`inventory
      ensures (Contents(), o) == DeductOne(old(Contents()), u, item)
    {
      o := Insufficient;
      if (u, item) in inventory && inventory[(u, item)] > 0 {
        inventory := inventory[(u, item) := inventory[(u, item)] - 1];
        o := Done;
      }
    }

    /** Inventory first, coins second; reports what was spent. */
    method UsePowerup(u: Id, item: string) returns (o: Outcome, coinsSpent: nat)
      modifies this`inventory, this`users
      ensures (Contents(), o) == UseItem(old(Contents()), u, item)
      ensures o == Done ==> coinsSpent == Balance(old(Contents()), u) - Balance(Contents(), u)
    {
      coinsSpent := 0;
      var price := PowerupPrice(item);
      if price.None? {
        return NotFound, 0;
      }
      o := TakeOne(u, item);
      if o != Done {
        o := SpendCoins(u, price.value);
        if o == Done {
          coinsSpent := price.value;
        }
      }
    }

    method AdminAdjust(u: Id, delta: int) returns (o: Outcome)
      modifies this`users
      ensures (Contents(), o) == AdjustCoins(old(Contents()), u, delta)
    {
      if u !in users {
        return NotFound;
      }
      if !Fits(users[u].coins + delta) {
        return OutOfRange;
      }
      if users[u].coins + delta < 0 {
        return Insufficient;
      }
      users := users[u := users[u].(coins := users[u].coins + delta)];
      o := Done;
    }

    method AdminExtend(u: Id, days: int, now: int) returns (o: Outcome)
      modifies this`users
      ensures (Contents(), o) == ExtendPremium(old(Contents()), u, days, now)
    {
      if u !in users {
        return NotFound;
      }
      var from := now;
      if users[u].premium.Some? && users[u].premium.value > now {
        from := users[u].premium.value;
      }
      users := users[u := users[u].(premium := Some(from + days * 86_400_000_000_000))];
      o := Done;
    }

    method AdminRevoke(u: Id) returns (o: Outcome)
      modifies this`users
      ensures (Contents(), o) == RevokePremium(old(Contents()), u)
    {
      if u !in users {
        return NotFound;
      }
      users := users[u := users[u].(premium := None)];
      o := Done;
    }
  }
}
