// Fines and the warrant flag: functions/Admin-Give-Fines.js,
// functions/Admin-Take-Fine.js and functions/Admin-Remove-Warrant.js.
module Fines {
  import opened Records

  /** Fines at or above this issue a warrant. */
  const WarrantThreshold := 100

  /** What `/admin-add-fines` reports: the new fines and whether it issued a warrant. */
  datatype FineReceipt = FineReceipt(finesAfter: int, warrantIssued: bool)

  /**
   * The record `/admin-add-fines` writes back: fines raised by `amount`, and
   * the warrant set whenever the new fines reach the threshold, even when
   * they already had.
   */
  function Fined(u: User, amount: int): (r: User)
    ensures r.fines == Some(Amount(u.fines) + amount)
    ensures r.warrant <==> u.warrant || Amount(u.fines) + amount >= WarrantThreshold
    ensures r.(fines := u.fines, warrant := u.warrant) == u
  {
    var fines := Amount(u.fines) + amount;
    u.(fines := Some(fines), warrant := u.warrant || fines >= WarrantThreshold)
  }

  /** `/admin-add-fines` on the loaded record. */
  method GiveFines(isAdmin: bool, users: Users, target: string, amount: int) returns (r: Reply<Users, FineReceipt>)
    ensures !isAdmin ==> r == Reply(users, Refused(PermissionDenied))
    ensures isAdmin && target !in users ==> r == Reply(users, Refused(UserNotFound))
    ensures isAdmin && target in users ==>
              r.state == users[target := Fined(users[target], amount)] &&
              r.outcome.Ok? &&
              r.outcome.value.finesAfter == Amount(users[target].fines) + amount &&
              (r.outcome.value.warrantIssued <==> r.outcome.value.finesAfter >= WarrantThreshold) &&
              (r.outcome.value.warrantIssued ==> r.state[target].warrant)
  {
    if !isAdmin {
      return Reply(users, Refused(PermissionDenied));
    }
    if target !in users {
      return Reply(users, Refused(UserNotFound));
    }
    var userData := users[target];
    var previousFines := Amount(userData.fines);
    userData := userData.(fines := Some(previousFines + amount));
    var warrantIssued := false;
    if previousFines + amount >= WarrantThreshold {
      userData := userData.(warrant := true);
      warrantIssued := true;
    }
    r := Reply(users[target := userData], Ok(FineReceipt(previousFines + amount, warrantIssued)));
  }

  /** A fine never clears a warrant. */
  lemma FineKeepsWarrant(u: User, amount: int)
    requires u.warrant
    ensures Fined(u, amount).warrant
  {
  }

  /** Fining someone already at the threshold issues the warrant again, even by 0. */
  lemma FineReissues(u: User, amount: int)
    requires Amount(u.fines) >= WarrantThreshold && amount >= 0
    ensures Amount(Fined(u, amount).fines) >= WarrantThreshold && Fined(u, amount).warrant
  {
  }

  /** What `/admin-remove-fines` reports. */
  datatype FineRelief = FineRelief(finesBefore: int, finesAfter: int, warrantCleared: bool)

  /**
   * `/admin-remove-fines`: refused when the fines are below the amount;
   * otherwise the fines drop by the amount, floored at 0, and reaching 0
   * clears the warrant. Only Fines and Warrant are written.
   */
  function TakeFine(isAdmin: bool, users: Users, target: string, amount: int): (r: Reply<Users, FineRelief>)
    ensures !isAdmin ==> r == Reply(users, Refused(PermissionDenied))
    ensures isAdmin && target !in users ==> r == Reply(users, Refused(UserNotFound))
    ensures r.outcome.Refused? ==> r.state == users
    ensures r.outcome.Ok? <==> isAdmin && target in users && Amount(users[target].fines) >= amount
    ensures r.outcome.Ok? ==>
              var v := r.outcome.value;
              var u := users[target];
              v.finesBefore == Amount(u.fines) &&
              v.finesAfter >= 0 &&
              (v.finesAfter > 0 ==> v.finesAfter == v.finesBefore - amount) &&
              (v.warrantCleared <==> v.finesAfter == 0) &&
              (v.warrantCleared <==> v.finesBefore - amount <= 0) &&
              r.state == users[target := u.(fines := Some(v.finesAfter),
                                            warrant := if v.warrantCleared then false else u.warrant)]
  {
    if !isAdmin then Reply(users, Refused(PermissionDenied))
    else if target !in users then Reply(users, Refused(UserNotFound))
    else
      var u := users[target];
      var before := Amount(u.fines);
      if before < amount then Reply(users, Refused(InsufficientFines))
      else
        var after := if before - amount <= 0 then 0 else before - amount;
        var cleared := before - amount <= 0;
        Reply(users[target := u.(fines := Some(after), warrant := if cleared then false else u.warrant)],
              Ok(FineRelief(before, after, cleared)))
  }

  /**
   * Taking back part of a fine that issued a warrant leaves the warrant in
   * place although the fines are now below the threshold: only paying off
   * everything clears it.
   */
  lemma WarrantOutlivesFines(users: Users, target: string)
    requires target in users && Amount(users[target].fines) == 0
    ensures var given := users[target := Fined(users[target], 100)];
            var taken := TakeFine(true, given, target, 50);
            taken.outcome.Ok? && taken.state[target].fines == Some(50) &&
            Amount(taken.state[target].fines) < WarrantThreshold && taken.state[target].warrant
  {
    var given := users[target := Fined(users[target], 100)];
    assert given[target].warrant;
  }

  /** Taking a fine and giving it back restores the fines while they stay positive. */
  lemma TakeThenFine(users: Users, target: string, amount: int)
    requires target in users && 0 <= amount < Amount(users[target].fines)
    ensures var t := TakeFine(true, users, target, amount);
            t.outcome.Ok? &&
            Fined(t.state[target], amount).fines == Some(Amount(users[target].fines)) &&
            (users[target].warrant ==> Fined(t.state[target], amount).warrant)
  {
  }

  datatype Pardon = Pardon

  /** The record `/remove-warrant` writes back: warrant off, rate 0, tax stamped. */
  function Pardoned(u: User, now: string): (r: User)
    ensures !r.warrant && r.rate == 0 && r.tax == now
    ensures r.fines == u.fines && r.(warrant := u.warrant, rate := u.rate, tax := u.tax) == u
  {
    u.(warrant := false, rate := 0, tax := now)
  }

  /**
   * `/remove-warrant` on the loaded record. A user without a warrant is left
   * as is; the time of the call is the `now` parameter.
   */
  method RemoveWarrant(isAdmin: bool, users: Users, target: string, now: string) returns (r: Reply<Users, Pardon>)
    ensures !isAdmin ==> r == Reply(users, Refused(PermissionDenied))
    ensures isAdmin && target !in users ==> r == Reply(users, Refused(UserNotFound))
    ensures isAdmin && target in users && !users[target].warrant ==> r == Reply(users, Refused(NoWarrant))
    ensures r.outcome.Ok? <==> isAdmin && target in users && users[target].warrant
    ensures r.outcome.Ok? ==> r.state == users[target := Pardoned(users[target], now)]
  {
    if !isAdmin {
      return Reply(users, Refused(PermissionDenied));
    }
    if target !in users {
      return Reply(users, Refused(UserNotFound));
    }
    var userData := users[target];
    if !userData.warrant {
      return Reply(users, Refused(NoWarrant));
    }
    userData := userData.(warrant := false);
    userData := userData.(rate := 0);
    userData := userData.(tax := now);
    r := Reply(users[target := userData], Ok(Pardon));
  }

  /**
   * A pardon leaves the fines owed, so while they are at the threshold the
   * next fine, of any non-negative amount, issues the warrant again.
   */
  lemma PardonThenFine(u: User, now: string, amount: int)
    requires Amount(u.fines) >= WarrantThreshold && amount >= 0
    ensures !Pardoned(u, now).warrant && Fined(Pardoned(u, now), amount).warrant
  {
  }
}
