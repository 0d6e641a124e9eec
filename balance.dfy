// services/balanceService.js: the dashboard's single-field balance update.
// Only Cash, Bank and Stash may be changed, and no balance may go below 0.
module Balances {
  import opened Records

  datatype Field = Cash | Bank | Stash

  /** `VALID_FIELDS.includes(field)`, read as the field it names. */
  function ParseField(name: string): (r: Option<Field>)
    ensures r.Some? <==> name in ["Cash", "Bank", "Stash"]
  {
    if name == "Cash" then Some(Cash)
    else if name == "Bank" then Some(Bank)
    else if name == "Stash" then Some(Stash)
    else None
  }

  function BalanceOf(u: User, f: Field): Option<int>
  {
    match f
    case Cash => u.cash
    case Bank => u.bank
    case Stash => u.stash
  }

  /** `{ [field]: value }` written to the row. */
  function WithBalance(u: User, f: Field, v: int): (r: User)
    ensures BalanceOf(r, f) == Some(v)
    ensures forall g | g != f :: BalanceOf(r, g) == BalanceOf(u, g)
    ensures r.(cash := u.cash, bank := u.bank, stash := u.stash) == u
  {
    match f
    case Cash => u.(cash := Some(v))
    case Bank => u.(bank := Some(v))
    case Stash => u.(stash := Some(v))
  }

  /** The `{ before, after }` a balance change reports. */
  datatype Change = Change(before: int, after: int)

  /**
   * `updateBalance({ userId, field, amount })`. An unknown field is refused
   * before the user is read; a result below zero is refused; otherwise only
   * the named field of that one user is written.
   */
  function UpdateBalance(users: Users, userId: string, field: string, amount: int): (r: Reply<Users, Change>)
    ensures ParseField(field).None? ==> r == Reply(users, Refused(InvalidField))
    ensures ParseField(field).Some? && userId !in users ==> r == Reply(users, Refused(UserNotFound))
    ensures r.outcome.Refused? ==> r.state == users
    ensures r.outcome.Ok? <==>
              ParseField(field).Some? && userId in users &&
              Amount(BalanceOf(users[userId], ParseField(field).value)) + amount >= 0
    ensures r.outcome.Ok? ==>
              var f := ParseField(field).value;
              var c := r.outcome.value;
              c.before == Amount(BalanceOf(users[userId], f)) &&
              c.after == c.before + amount && c.after >= 0 &&
              r.state.Keys == users.Keys &&
              (forall id | id in users && id != userId :: r.state[id] == users[id]) &&
              BalanceOf(r.state[userId], f) == Some(c.after) &&
              (forall g | g != f :: BalanceOf(r.state[userId], g) == BalanceOf(users[userId], g)) &&
              r.state[userId].(cash := users[userId].cash, bank := users[userId].bank, stash := users[userId].stash) == users[userId]
  {
    match ParseField(field)
    case None => Reply(users, Refused(InvalidField))
    case Some(f) =>
      if userId !in users then Reply(users, Refused(UserNotFound))
      else
        var before := Amount(BalanceOf(users[userId], f));
        var after := before + amount;
        if after < 0 then Reply(users, Refused(NegativeBalance))
        else Reply(users[userId := WithBalance(users[userId], f, after)], Ok(Change(before, after)))
  }

  /**
   * Undoing a successful change of a non-negative balance with the opposite
   * amount succeeds and restores the row, except that a null balance comes
   * back as 0.
   */
  lemma UpdateBalanceUndo(users: Users, userId: string, field: string, amount: int)
    requires UpdateBalance(users, userId, field, amount).outcome.Ok?
    requires Amount(BalanceOf(users[userId], ParseField(field).value)) >= 0
    ensures var once := UpdateBalance(users, userId, field, amount);
            var twice := UpdateBalance(once.state, userId, field, -amount);
            twice.outcome == Ok(Change(once.outcome.value.after, once.outcome.value.before)) &&
            twice.state == users[userId := WithBalance(users[userId], ParseField(field).value,
                                                       Amount(BalanceOf(users[userId], ParseField(field).value)))]
  {
    var f := ParseField(field).value;
    var u := users[userId];
    var once := UpdateBalance(users, userId, field, amount);
    var u1 := once.state[userId];
    var before := Amount(BalanceOf(u, f));
    assert u1 == WithBalance(u, f, before + amount);
    assert WithBalance(u1, f, before) == WithBalance(u, f, before) by {
      match f
      case Cash =>
      case Bank =>
      case Stash =>
    }
    assert Amount(BalanceOf(u1, f)) == before + amount;
    var twice := UpdateBalance(once.state, userId, field, -amount);
    assert twice.state == once.state[userId := WithBalance(u1, f, before)];
    assert once.state[userId := WithBalance(u, f, before)] == users[userId := WithBalance(u, f, before)];
  }
}
