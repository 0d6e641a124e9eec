// The six admin balance commands (functions/Admin-Give-Cash.js,
// Admin-Take-Cash.js, Admin-Give-Bank.js, Admin-Take-Bank.js,
// Admin-Give-Stash.js, Admin-Take-Stash.js). Each reads one balance
// (missing or non-numeric as 0) and writes back only that balance.
module AdminBalance {
  import opened Records
  import opened Balances

  /**
   * `/admin-add-cash`, `/admin-add-bank`, `/admin-add-stash`: the amount is
   * added without a sign check, so a negative amount can take the balance
   * below zero.
   */
  function Give(isAdmin: bool, users: Users, target: string, f: Field, amount: int): (r: Reply<Users, Change>)
    ensures !isAdmin ==> r == Reply(users, Refused(PermissionDenied))
    ensures isAdmin && target !in users ==> r == Reply(users, Refused(UserNotFound))
    ensures r.outcome.Ok? <==> isAdmin && target in users
    ensures r.outcome.Ok? ==>
              r.outcome.value.before == Amount(BalanceOf(users[target], f)) &&
              r.outcome.value.after == r.outcome.value.before + amount &&
              r.state == users[target := WithBalance(users[target], f, r.outcome.value.after)]
  {
    if !isAdmin then Reply(users, Refused(PermissionDenied))
    else if target !in users then Reply(users, Refused(UserNotFound))
    else
      var before := Amount(BalanceOf(users[target], f));
      Reply(users[target := WithBalance(users[target], f, before + amount)], Ok(Change(before, before + amount)))
  }

  /**
   * `/admin-remove-cash`, `/admin-remove-bank`: refused when the balance is
   * below the amount. The amount is not sign-checked.
   */
  function Take(isAdmin: bool, users: Users, target: string, f: Field, amount: int): (r: Reply<Users, Change>)
    ensures !isAdmin ==> r == Reply(users, Refused(PermissionDenied))
    ensures isAdmin && target !in users ==> r == Reply(users, Refused(UserNotFound))
    ensures r.outcome.Refused? ==> r.state == users
    ensures r.outcome.Ok? <==> isAdmin && target in users && Amount(BalanceOf(users[target], f)) >= amount
    ensures r.outcome.Ok? ==>
              r.outcome.value.before == Amount(BalanceOf(users[target], f)) &&
              r.outcome.value.after == r.outcome.value.before - amount &&
              (amount >= 0 ==> r.outcome.value.after >= 0) &&
              r.state == users[target := WithBalance(users[target], f, r.outcome.value.after)]
  {
    if !isAdmin then Reply(users, Refused(PermissionDenied))
    else if target !in users then Reply(users, Refused(UserNotFound))
    else
      var before := Amount(BalanceOf(users[target], f));
      if before < amount then Reply(users, Refused(InsufficientFunds))
      else Reply(users[target := WithBalance(users[target], f, before - amount)], Ok(Change(before, before - amount)))
  }

  /**
   * `/admin-remove-stash`: a non-positive amount is refused before the user
   * is read; otherwise as `Take`, so the stash never goes below zero.
   */
  function TakeStash(isAdmin: bool, users: Users, target: string, amount: int): (r: Reply<Users, Change>)
    ensures !isAdmin ==> r == Reply(users, Refused(PermissionDenied))
    ensures isAdmin && amount <= 0 ==> r == Reply(users, Refused(NonPositiveAmount))
    ensures r.outcome.Refused? ==> r.state == users
    ensures r.outcome.Ok? <==> isAdmin && amount > 0 && target in users && Amount(users[target].stash) >= amount
    ensures r.outcome.Ok? ==>
              0 <= r.outcome.value.after < r.outcome.value.before == Amount(users[target].stash) &&
              r.outcome.value.before - r.outcome.value.after == amount
    ensures amount > 0 ==> r == Take(isAdmin, users, target, Stash, amount)
  {
    if !isAdmin then Reply(users, Refused(PermissionDenied))
    else if amount <= 0 then Reply(users, Refused(NonPositiveAmount))
    else Take(isAdmin, users, target, Stash, amount)
  }

  /** A negative amount passes the take check and increases the balance. */
  lemma NegativeTakeAdds(users: Users, target: string, f: Field, amount: int)
    requires target in users && amount < 0 && Amount(BalanceOf(users[target], f)) >= 0
    ensures var r := Take(true, users, target, f, amount);
            r.outcome.Ok? && r.outcome.value.after > r.outcome.value.before
  {
  }

  /** A negative give can leave a zero balance below zero. */
  lemma NegativeGiveGoesBelowZero(users: Users, target: string, f: Field, amount: int)
    requires target in users && amount < 0 && Amount(BalanceOf(users[target], f)) == 0
    ensures var r := Give(true, users, target, f, amount);
            r.outcome.Ok? && BalanceOf(r.state[target], f) == Some(amount)
  {
  }

  /** Giving and then taking the same non-negative amount restores the balance. */
  lemma GiveThenTake(users: Users, target: string, f: Field, amount: int)
    requires target in users && amount >= 0 && Amount(BalanceOf(users[target], f)) >= 0
    ensures var g := Give(true, users, target, f, amount);
            var t := Take(true, g.state, target, f, amount);
            t.outcome == Ok(Change(g.outcome.value.after, g.outcome.value.before)) &&
            t.state == users[target := WithBalance(users[target], f, Amount(BalanceOf(users[target], f)))]
  {
    var u := users[target];
    var before := Amount(BalanceOf(u, f));
    var g := Give(true, users, target, f, amount);
    var u1 := g.state[target];
    assert WithBalance(u1, f, before) == WithBalance(u, f, before) by {
      match f
      case Cash =>
      case Bank =>
      case Stash =>
    }
    assert Amount(BalanceOf(u1, f)) == before + amount;
  }

  /**
   * Where the dashboard's update accepts a change, an admin give of the
   * same amount writes the same row; the give also goes through where the
   * dashboard refuses a negative result.
   */
  lemma GiveAgreesWithUpdateBalance(users: Users, target: string, name: string, amount: int)
    requires ParseField(name).Some? && target in users
    ensures var f := ParseField(name).value;
            var u := UpdateBalance(users, target, name, amount);
            var g := Give(true, users, target, f, amount);
            g.outcome.Ok? &&
            (u.outcome.Ok? ==> u == g) &&
            (u.outcome.Refused? <==> g.outcome.value.after < 0)
  {
  }
}
