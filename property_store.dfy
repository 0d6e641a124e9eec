// functions/property-store.js: browse the property list one entry at a
// time, buy an unowned property (at most one of each mapped type, any
// number of homesteads) and sell one the user owns.
module PropertyStore {
  import opened Text
  import opened Records
  import opened InventoryMutation
  import opened Funds
  import opened Ownership

  const Homestead := "Homestead"

  /** The keys of TYPE_COLUMN_MAP; each names the user flag of that type. */
  const TypeColumns: set<string> := {"Outlaw", "Ranch", "SmallBusiness", "BigBusiness", "Utility", Homestead}

  /** A buy of this type is blocked: the user already owns one of it. */
  predicate TypeBlocked(u: User, kind: string)
  {
    kind in TypeColumns && kind != Homestead && Flag(u, kind)
  }

  /** `Number(user.HomesteadCount ?? 1)`: a null count reads as 1 on a sale. */
  function CountOnSale(c: Option<int>): int
  {
    match c
    case None => 1
    case Some(n) => n
  }

  /** The buyer after the purchase of `p`. */
  function BoughtUser(u: User, p: Property): User
  {
    var purse := SpendCashFirst(Amount(u.cash), Amount(u.bank), p.price);
    var v := WithColumn(u, PropertiesColumn, AppendName(Column(u, PropertiesColumn), p.name))
               .(cash := Some(purse.cash), bank := Some(purse.bank));
    if p.kind == Homestead then
      v.(flags := v.flags[Homestead := true], homesteadCount := Some(Amount(u.homesteadCount) + 1))
    else if p.kind in TypeColumns then v.(flags := v.flags[p.kind := true])
    else v
  }

  /** The seller after the sale of `p`. */
  function SoldUser(u: User, p: Property): User
  {
    var v := WithColumn(u, PropertiesColumn, Unlisted(Column(u, PropertiesColumn), p.name))
               .(cash := Some(Amount(u.cash) + p.price));
    if p.kind == Homestead then
      var count := Max(0, CountOnSale(u.homesteadCount) - 1);
      v.(flags := v.flags[Homestead := count > 0], homesteadCount := Some(count))
    else if p.kind in TypeColumns then v.(flags := v.flags[p.kind := false])
    else v
  }

  /** The buy button, then confirm_buy, on entry `index`. */
  method StoreBuy(s: Store, userId: string, username: string, index: nat) returns (r: Reply<Store, Property>)
    requires index < |s.properties|
    ensures r.outcome.Refused? ==> r.state == s
    ensures userId !in s.users ==> r.outcome == Refused(UserNotFound)
    ensures userId in s.users && s.properties[index].userId.Some? ==> r.outcome == Refused(AlreadyOwned)
    ensures userId in s.users && s.properties[index].userId.None? && TypeBlocked(s.users[userId], s.properties[index].kind) ==>
              r.outcome == Refused(AlreadyOwnsType)
    ensures r.outcome.Ok? <==>
              userId in s.users && s.properties[index].userId.None? &&
              !TypeBlocked(s.users[userId], s.properties[index].kind) &&
              Amount(s.users[userId].cash) + Amount(s.users[userId].bank) >= s.properties[index].price
    ensures r.outcome.Ok? ==>
              r.outcome.value == Claimed(s.properties[index], userId, username) &&
              r.state == Store(s.users[userId := BoughtUser(s.users[userId], s.properties[index])],
                               s.properties[index := Claimed(s.properties[index], userId, username)])
  {
    if userId !in s.users {
      return Reply(s, Refused(UserNotFound));
    }
    var user := s.users[userId];
    var prop := s.properties[index];
    if prop.userId.Some? {
      return Reply(s, Refused(AlreadyOwned));
    }
    if prop.kind in TypeColumns && prop.kind != Homestead && Flag(user, prop.kind) {
      return Reply(s, Refused(AlreadyOwnsType));
    }
    var price := prop.price;
    var cash := Amount(user.cash);
    var bank := Amount(user.bank);
    if cash + bank < price {
      return Reply(s, Refused(InsufficientFunds));
    }
    var remaining := price;
    if cash >= remaining {
      cash := cash - remaining;
    } else {
      remaining := remaining - cash;
      cash := 0;
      bank := bank - remaining;
    }
    var properties := Column(user, PropertiesColumn);
    var updated := if properties != "" then properties + ", " + prop.name else prop.name;
    var buyer := WithColumn(user, PropertiesColumn, updated).(cash := Some(cash), bank := Some(bank));
    if prop.kind == Homestead {
      buyer := buyer.(flags := buyer.flags[Homestead := true]);
      buyer := buyer.(homesteadCount := Some(Amount(user.homesteadCount) + 1));
    } else if prop.kind in TypeColumns {
      buyer := buyer.(flags := buyer.flags[prop.kind := true]);
    }
    prop := prop.(owner := Some(username));
    prop := prop.(userId := Some(userId));
    r := Reply(Store(s.users[userId := buyer], s.properties[index := prop]), Ok(prop));
  }

  /** The sell button, then confirm_sell, on entry `index`. */
  method StoreSell(s: Store, userId: string, index: nat) returns (r: Reply<Store, Property>)
    requires index < |s.properties|
    ensures r.outcome.Refused? ==> r.state == s
    ensures userId !in s.users ==> r.outcome == Refused(UserNotFound)
    ensures r.outcome.Ok? <==> userId in s.users && s.properties[index].userId == Some(userId)
    ensures r.outcome.Ok? ==>
              r.outcome.value == Released(s.properties[index]) &&
              r.state == Store(s.users[userId := SoldUser(s.users[userId], s.properties[index])],
                               s.properties[index := Released(s.properties[index])])
  {
    if userId !in s.users {
      return Reply(s, Refused(UserNotFound));
    }
    var user := s.users[userId];
    var prop := s.properties[index];
    if prop.userId != Some(userId) {
      return Reply(s, Refused(NotOwner));
    }
    var salePrice := prop.price;
    var cashBefore := Amount(user.cash);
    var seller := WithColumn(user, PropertiesColumn, Join(Without(Split(Column(user, PropertiesColumn), ", "), prop.name), ", "));
    seller := seller.(cash := Some(cashBefore + salePrice));
    if prop.kind == Homestead {
      var count := Max(0, CountOnSale(user.homesteadCount) - 1);
      seller := seller.(homesteadCount := Some(count));
      seller := seller.(flags := seller.flags[Homestead := count > 0]);
    } else if prop.kind in TypeColumns {
      seller := seller.(flags := seller.flags[prop.kind := false]);
    }
    prop := prop.(owner := None);
    prop := prop.(userId := None);
    r := Reply(Store(s.users[userId := seller], s.properties[index := prop]), Ok(prop));
  }

  // ------------------------------------------------------------ lemmas

  /**
   * A purchase spends cash first and then bank, the two together drop by
   * exactly the price, and neither goes negative when both started at
   * zero or above.
   */
  lemma BoughtSpends(u: User, p: Property)
    requires Amount(u.cash) + Amount(u.bank) >= p.price
    ensures var v := BoughtUser(u, p);
            Amount(v.cash) + Amount(v.bank) == Amount(u.cash) + Amount(u.bank) - p.price &&
            (Amount(u.cash) >= p.price ==> Amount(v.bank) == Amount(u.bank)) &&
            (Amount(u.cash) < p.price ==> Amount(v.cash) == 0)
    ensures Amount(u.cash) >= 0 && Amount(u.bank) >= 0 && p.price >= 0 ==>
              Amount(BoughtUser(u, p).cash) >= 0 && Amount(BoughtUser(u, p).bank) >= 0
  {
  }

  /** A purchase appends the property's name to the Properties column. */
  lemma BoughtLists(u: User, p: Property)
    requires WellFormedItem(p.name)
    ensures var before := Column(u, PropertiesColumn);
            Holdings(BoughtUser(u, p)) == (if before == "" then [] else Holdings(u)) + [p.name]
  {
    AppendNameSplits(Column(u, PropertiesColumn), p.name);
  }

  /**
   * The type flag: a purchase of a mapped type other than Homestead sets
   * the flag, so a second purchase of that type is refused; a sale clears it.
   */
  lemma TypeFlagRoundTrip(u: User, p: Property)
    requires p.kind in TypeColumns && p.kind != Homestead
    ensures TypeBlocked(BoughtUser(u, p), p.kind)
    ensures !TypeBlocked(SoldUser(u, p), p.kind)
  {
  }

  /**
   * Homesteads are counted: a purchase adds one and sets the flag; a sale
   * takes one off, never below zero, and the flag says whether any remain.
   */
  lemma HomesteadCounts(u: User, p: Property)
    requires p.kind == Homestead
    ensures BoughtUser(u, p).homesteadCount == Some(Amount(u.homesteadCount) + 1)
    ensures Flag(BoughtUser(u, p), Homestead)
    ensures var c := SoldUser(u, p).homesteadCount.value;
            c >= 0 && (c == 0 || c == CountOnSale(u.homesteadCount) - 1) &&
            (Flag(SoldUser(u, p), Homestead) <==> c > 0)
  {
  }

  /**
   * Buying a property whose name the user did not list and then selling
   * it gives back the Properties column, the funds in total, and the
   * homestead count.
   */
  lemma BuyThenSell(u: User, p: Property)
    requires WellFormedItem(p.name) && p.name !in Holdings(u)
    requires Amount(u.homesteadCount) >= 0
    ensures var w := SoldUser(BoughtUser(u, p), p);
            Column(w, PropertiesColumn) == Column(u, PropertiesColumn) &&
            Amount(w.cash) + Amount(w.bank) == Amount(u.cash) + Amount(u.bank) &&
            (p.kind == Homestead ==> Amount(w.homesteadCount) == Amount(u.homesteadCount))
  {
    AppendThenUnlist(Column(u, PropertiesColumn), p.name);
  }

  /** Both transitions keep each user's list in step with the property list. */
  lemma StoreBuyKeepsConsistent(s: Store, userId: string, username: string, index: nat)
    requires Consistent(s) && UniqueNames(s.properties) && NamesWellFormed(s.properties)
    requires index < |s.properties| && userId in s.users && s.properties[index].userId.None?
    ensures Consistent(Store(s.users[userId := BoughtUser(s.users[userId], s.properties[index])],
                             s.properties[index := Claimed(s.properties[index], userId, username)]))
  {
    var u := s.users[userId];
    var p := s.properties[index];
    forall m
      ensures Listed(BoughtUser(u, p), m) <==> Listed(u, m) || m == p.name
    {
      AppendNameListed(u, p.name, m);
    }
    ClaimKeepsConsistent(s, index, userId, BoughtUser(u, p), username);
  }

  lemma StoreSellKeepsConsistent(s: Store, userId: string, index: nat)
    requires Consistent(s) && UniqueNames(s.properties)
    requires index < |s.properties| && userId in s.users && s.properties[index].userId == Some(userId)
    ensures Consistent(Store(s.users[userId := SoldUser(s.users[userId], s.properties[index])],
                             s.properties[index := Released(s.properties[index])]))
  {
    var u := s.users[userId];
    var p := s.properties[index];
    forall m
      ensures Listed(SoldUser(u, p), m) <==> Listed(u, m) && m != p.name
    {
      UnlistedListed(u, p.name, m);
    }
    ReleaseKeepsConsistent(s, index, userId, SoldUser(u, p));
  }

  // ------------------------------------------------- the command session

  /*
   * As written, the command reads the user row once when it starts and
   * keeps that snapshot for the whole session: every later buy or sell
   * checks and computes from it, while `updateUser` writes only the
   * columns a confirm names over the row as stored. The property list is
   * the session's own, whose rows each confirm updates.
   */

  /** The stored row after confirm_buy computed from the snapshot `snap`. */
  function SnapshotBought(cur: User, snap: User, p: Property): (r: User)
    ensures cur == snap ==> r == BoughtUser(snap, p)
  {
    var b := BoughtUser(snap, p);
    var w := WithColumn(cur, PropertiesColumn, AppendName(Column(snap, PropertiesColumn), p.name))
               .(cash := b.cash, bank := b.bank);
    if p.kind == Homestead then
      w.(flags := w.flags[Homestead := true], homesteadCount := Some(Amount(snap.homesteadCount) + 1))
    else if p.kind in TypeColumns then w.(flags := w.flags[p.kind := true])
    else w
  }

  /** The stored row after confirm_sell computed from the snapshot `snap`; the bank is not written. */
  function SnapshotSold(cur: User, snap: User, p: Property): (r: User)
    ensures cur == snap ==> r == SoldUser(snap, p)
    ensures r.bank == cur.bank
  {
    var w := WithColumn(cur, PropertiesColumn, Unlisted(Column(snap, PropertiesColumn), p.name))
               .(cash := Some(Amount(snap.cash) + p.price));
    if p.kind == Homestead then
      var count := Max(0, CountOnSale(snap.homesteadCount) - 1);
      w.(flags := w.flags[Homestead := count > 0], homesteadCount := Some(count))
    else if p.kind in TypeColumns then w.(flags := w.flags[p.kind := false])
    else w
  }

  /**
   * A buy and its confirmation inside a session opened with the user row
   * `snap`: the checks read the snapshot, the write lands on the stored row.
   */
  function SessionBuy(s: Store, snap: User, userId: string, username: string, index: nat): (r: Reply<Store, Property>)
    requires index < |s.properties| && userId in s.users
    ensures r.outcome.Refused? ==> r.state == s
    ensures r.outcome.Ok? <==>
              s.properties[index].userId.None? && !TypeBlocked(snap, s.properties[index].kind) &&
              Amount(snap.cash) + Amount(snap.bank) >= s.properties[index].price
    ensures r.outcome.Ok? ==>
              r.outcome.value == Claimed(s.properties[index], userId, username) &&
              r.state.properties == s.properties[index := r.outcome.value] &&
              r.state.users == s.users[userId := SnapshotBought(s.users[userId], snap, s.properties[index])]
    ensures snap == s.users[userId] && r.outcome.Ok? ==>
              r.state == Store(s.users[userId := BoughtUser(snap, s.properties[index])],
                               s.properties[index := Claimed(s.properties[index], userId, username)])
  {
    var p := s.properties[index];
    if p.userId.Some? then Reply(s, Refused(AlreadyOwned))
    else if TypeBlocked(snap, p.kind) then Reply(s, Refused(AlreadyOwnsType))
    else if Amount(snap.cash) + Amount(snap.bank) < p.price then Reply(s, Refused(InsufficientFunds))
    else
      var q := Claimed(p, userId, username);
      Reply(Store(s.users[userId := SnapshotBought(s.users[userId], snap, p)], s.properties[index := q]), Ok(q))
  }

  /** A sell and its confirmation inside the same session. */
  function SessionSell(s: Store, snap: User, userId: string, index: nat): (r: Reply<Store, Property>)
    requires index < |s.properties| && userId in s.users
    ensures r.outcome.Refused? ==> r.state == s
    ensures r.outcome.Ok? <==> s.properties[index].userId == Some(userId)
    ensures r.outcome.Ok? ==>
              r.outcome.value == Released(s.properties[index]) &&
              r.state.properties == s.properties[index := r.outcome.value] &&
              r.state.users == s.users[userId := SnapshotSold(s.users[userId], snap, s.properties[index])]
    ensures snap == s.users[userId] && r.outcome.Ok? ==>
              r.state == Store(s.users[userId := SoldUser(snap, s.properties[index])],
                               s.properties[index := Released(s.properties[index])])
  {
    var p := s.properties[index];
    if p.userId != Some(userId) then Reply(s, Refused(NotOwner))
    else
      var q := Released(p);
      Reply(Store(s.users[userId := SnapshotSold(s.users[userId], snap, p)], s.properties[index := q]), Ok(q))
  }

  /**
   * As written: a user who buys an unowned property with cash and sells it
   * back in the same session is credited the price on top of the cash they
   * started with, so they end the price richer than they began.
   */
  lemma SnapshotResale(s: Store, userId: string, username: string, index: nat)
    requires index < |s.properties| && userId in s.users
    requires var p := s.properties[index]; var u := s.users[userId];
             p.userId.None? && !TypeBlocked(u, p.kind) &&
             p.price <= Amount(u.cash) && p.price <= Amount(u.cash) + Amount(u.bank)
    ensures var u := s.users[userId];
            var b := SessionBuy(s, u, userId, username, index);
            b.outcome.Ok? && b.state.properties[index].userId == Some(userId) &&
            var t := SessionSell(b.state, u, userId, index);
            t.outcome.Ok? &&
            Amount(t.state.users[userId].cash) + Amount(t.state.users[userId].bank) ==
              Amount(u.cash) + Amount(u.bank) + s.properties[index].price
  {
    var u := s.users[userId];
    var p := s.properties[index];
    var b := SessionBuy(s, u, userId, username, index);
    assert b.state.users[userId] == BoughtUser(u, p);
    assert Amount(BoughtUser(u, p).bank) == Amount(u.bank);
    var t := SessionSell(b.state, u, userId, index);
    assert t.state.users[userId] == SnapshotSold(BoughtUser(u, p), u, p);
  }

  /**
   * The example: Cash 1000, Bank 0 and a Ranch priced 500. Buying and
   * selling it in one session leaves Cash 1500, where the intended flow
   * (StoreBuy, then StoreSell on the current row) gives back 1000.
   */
  lemma RanchResaleExample(s: Store, userId: string, username: string)
    requires |s.properties| == 1 && userId in s.users
    requires s.properties[0].userId.None? && s.properties[0].kind == "Ranch" && s.properties[0].price == 500
    requires s.users[userId].cash == Some(1000) && s.users[userId].bank == Some(0) && !Flag(s.users[userId], "Ranch")
    ensures var u := s.users[userId];
            var b := SessionBuy(s, u, userId, username, 0);
            b.outcome.Ok? &&
            var t := SessionSell(b.state, u, userId, 0);
            t.outcome.Ok? && t.state.users[userId].cash == Some(1500)
    ensures var v := SoldUser(BoughtUser(s.users[userId], s.properties[0]), s.properties[0]);
            Amount(v.cash) + Amount(v.bank) == 1000
  {
    SnapshotResale(s, userId, username, 0);
  }

  /**
   * As written: after buying one Ranch in a session the stored row has the
   * Ranch flag set, yet a second Ranch still passes the check made on the
   * snapshot; its confirmation rewrites Properties from the snapshot, which
   * drops the first name while that property still records the user.
   */
  lemma SnapshotSecondRanch(s: Store, userId: string, username: string, i: nat, j: nat)
    requires i < |s.properties| && j < |s.properties| && i != j && userId in s.users
    requires var a := s.properties[i]; var c := s.properties[j]; var u := s.users[userId];
             a.userId.None? && c.userId.None? && a.kind == "Ranch" && c.kind == "Ranch" &&
             WellFormedItem(c.name) && a.name != c.name &&
             !Flag(u, "Ranch") && Column(u, PropertiesColumn) == "" &&
             a.price <= Amount(u.cash) + Amount(u.bank) && c.price <= Amount(u.cash) + Amount(u.bank)
    ensures var u := s.users[userId];
            var b := SessionBuy(s, u, userId, username, i);
            b.outcome.Ok? && TypeBlocked(b.state.users[userId], "Ranch") &&
            var t := SessionBuy(b.state, u, userId, username, j);
            t.outcome.Ok? && !Consistent(t.state)
  {
    var u := s.users[userId];
    var a := s.properties[i];
    var c := s.properties[j];
    var b := SessionBuy(s, u, userId, username, i);
    assert b.state.users[userId] == BoughtUser(u, a);
    var t := SessionBuy(b.state, u, userId, username, j);
    var w := t.state.users[userId];
    assert Column(w, PropertiesColumn) == c.name;
    NoCommaNoMatch(c.name);
    SplitOfNoMatch(c.name, ", ", "");
    assert "" + c.name == c.name;
    assert Holdings(w) == [c.name];
    assert t.state.properties[i].userId == Some(userId);
    assert !Listed(w, t.state.properties[i].name);
  }
}
