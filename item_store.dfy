// functions/item-search.js: the general store. An item's Type names the
// user column holding owned copies (comma list); some categories cap how
// many may be owned. Buying spends cash before bank and appends copies;
// selling removes matching copies scanning from the end of the list.
module ItemStore {
  import opened Text
  import opened Records
  import opened InventoryMutation
  import opened Funds

  datatype Item = Item(name: string, kind: string, price: int, details: string)

  /** An ownership cap; categories outside the table have none (`?? Infinity`). */
  datatype Limit = Bounded(n: int) | Unlimited

  const ItemLimits: map<string, int> :=
    map["pistol" := 1, "license" := 1, "bow" := 1, "rifle" := 1, "repeater" := 1,
        "shotgun" := 1, "other" := 1, "wagon" := 1, "revolver" := 2]

  /** `getCategoryField`: the user column an item type is stored under. */
  function CategoryField(kind: string): (r: string)
    ensures Lower(r) == Lower(kind)
    ensures |kind| > 0 ==> r[0] == UpperChar(kind[0]) && r[1..] == Lower(kind[1..])
  {
    CapitalizeWord(kind)
  }

  /** `itemLimits[cat?.toLowerCase()] ?? Infinity` */
  function LimitOf(cat: string): (r: Limit)
    ensures r.Bounded? <==> Lower(cat) in ItemLimits
    ensures r.Bounded? ==> r.n == ItemLimits[Lower(cat)] && r.n >= 1
  {
    if Lower(cat) in ItemLimits then Bounded(ItemLimits[Lower(cat)]) else Unlimited
  }

  /** The revolver column is the only one capped at two; any other type is capped at one or not at all. */
  lemma LimitTable(kind: string)
    ensures LimitOf(CategoryField(kind)) == Bounded(2) <==> Lower(kind) == "revolver"
    ensures LimitOf(CategoryField(kind)).Bounded? && Lower(kind) != "revolver" ==>
              LimitOf(CategoryField(kind)) == Bounded(1)
  {
  }

  /** The owned copies as the store reads them: split on ',', trimmed, empties dropped. */
  function Owned(u: User, item: Item): seq<string>
  {
    ParseList(Column(u, CategoryField(item.kind)))
  }

  /** `count`: the owned entries equal to the item's name, ignoring case. */
  function OwnedCount(u: User, item: Item): nat
  {
    Occ(Owned(u, item), item.name)
  }

  function TotalFunds(u: User): int
  {
    Amount(u.cash) + Amount(u.bank)
  }

  predicate BelowLimit(count: int, limit: Limit)
  {
    limit.Unlimited? || count < limit.n
  }

  /** The Buy button is shown. */
  predicate BuyOffered(u: User, item: Item)
  {
    BelowLimit(OwnedCount(u, item), LimitOf(CategoryField(item.kind))) && TotalFunds(u) >= item.price
  }

  /** The Sell button is shown. */
  predicate SellOffered(u: User, item: Item)
  {
    OwnedCount(u, item) > 0
  }

  datatype Action = Buy | Sell

  /**
   * `maxQty`: for a buy, the smaller of the room left under the cap and the
   * number of copies the funds pay for; for a sale, the copies owned.
   */
  function MaxQty(u: User, item: Item, action: Action): (r: int)
    requires action == Buy ==> item.price > 0
    ensures action == Sell ==> r == OwnedCount(u, item)
    ensures action == Buy ==> (r * item.price <= TotalFunds(u) < (r + 1) * item.price) ||
                              (LimitOf(CategoryField(item.kind)).Bounded? &&
                               r == LimitOf(CategoryField(item.kind)).n - OwnedCount(u, item))
    ensures action == Buy && LimitOf(CategoryField(item.kind)).Bounded? ==>
              r <= LimitOf(CategoryField(item.kind)).n - OwnedCount(u, item)
    ensures action == Buy ==> r * item.price <= TotalFunds(u)
  {
    match action
    case Sell => OwnedCount(u, item)
    case Buy =>
      var affordable := TotalFunds(u) / item.price;
      DivBounds(TotalFunds(u), item.price);
      match LimitOf(CategoryField(item.kind))
      case Unlimited => affordable
      case Bounded(l) =>
        if l - OwnedCount(u, item) <= affordable then
          MulMonotone(l - OwnedCount(u, item), affordable, item.price);
          l - OwnedCount(u, item)
        else affordable
  }

  /** `Math.floor(funds / price)` is the largest count the funds pay for. */
  lemma DivBounds(funds: int, price: int)
    requires price > 0
    ensures (funds / price) * price <= funds < (funds / price + 1) * price
  {
  }

  lemma MulMonotone(a: int, b: int, c: int)
    requires a <= b && c >= 0
    ensures a * c <= b * c
  {
  }

  /** The buttons shown agree with the refusal of a non-positive `maxQty`. */
  lemma OfferedIffMaxQty(u: User, item: Item)
    requires item.price > 0
    ensures BuyOffered(u, item) <==> MaxQty(u, item, Buy) >= 1
    ensures SellOffered(u, item) <==> MaxQty(u, item, Sell) >= 1
  {
    DivBounds(TotalFunds(u), item.price);
    if TotalFunds(u) >= item.price {
      assert TotalFunds(u) / item.price >= 1;
    } else {
      assert TotalFunds(u) / item.price < 1;
    }
  }

  // ------------------------------------------------------- removal from the end

  /** The list with its last `q` case-insensitive matches of `item` removed. */
  function RemoveLast(xs: seq<string>, item: string, q: nat): seq<string>
  {
    if q == 0 || |xs| == 0 then xs
    else if Matches(xs[|xs| - 1], item) then RemoveLast(xs[..|xs| - 1], item, q - 1)
    else RemoveLast(xs[..|xs| - 1], item, q) + [xs[|xs| - 1]]
  }

  /**
   * Removing from the end takes `min(q, matches)` matches away and keeps
   * every other entry, in order.
   */
  lemma {:induction false} RemoveLastCounts(xs: seq<string>, item: string, q: nat)
    ensures |RemoveLast(xs, item, q)| == |xs| - Min(q, Occ(xs, item))
    ensures Occ(RemoveLast(xs, item, q), item) == Occ(xs, item) - Min(q, Occ(xs, item))
    ensures Others(RemoveLast(xs, item, q), item) == Others(xs, item)
    ensures forall x | x in RemoveLast(xs, item, q) :: x in xs
  {
    if q > 0 && |xs| > 0 {
      var init, last := xs[..|xs| - 1], xs[|xs| - 1];
      assert xs == init + [last];
      OccAppend(init, [last], item);
      assert Occ([last], item) == (if Matches(last, item) then 1 else 0);
      assert Others([last], item) == (if Matches(last, item) then [] else [last]);
      if Matches(last, item) {
        RemoveLastCounts(init, item, q - 1);
      } else {
        RemoveLastCounts(init, item, q);
        OccAppend(RemoveLast(init, item, q), [last], item);
      }
    }
  }

  /** The end scan and the front scan pick different copies. */
  lemma RemovesLatest()
    ensures RemoveLast(["Apple", "Bread", "apple"], "APPLE", 1) == ["Apple", "Bread"]
    ensures RemoveFirst(["Apple", "Bread", "apple"], "APPLE", 1) == ["Bread", "apple"]
  {
    assert Lower("apple") == Lower("APPLE") == Lower("Apple") == "apple";
    assert Lower("Bread")[0] == 'b';
    var xs := ["Apple", "Bread", "apple"];
    assert xs[..2] == ["Apple", "Bread"];
    assert RemoveLast(xs, "APPLE", 1) == RemoveLast(["Apple", "Bread"], "APPLE", 0);
    assert xs[1..] == ["Bread", "apple"];
  }

  /** `for (i = len - 1; i >= 0 && removed < qty; i--) if (match) { splice(i, 1); removed++ }` */
  method RemoveFromEnd(items: seq<string>, item: string, qty: nat) returns (r: seq<string>)
    ensures r == RemoveLast(items, item, qty)
  {
    r := items;
    var removed := 0;
    var k := |items|;
    assert items[..k] == items && r[k..] == [];
    while k > 0 && removed < qty
      invariant 0 <= k <= |r| && 0 <= removed <= qty
      invariant r[..k] == items[..k]
      invariant RemoveLast(items, item, qty) == RemoveLast(items[..k], item, qty - removed) + r[k..]
      decreases k
    {
      var i := k - 1;
      assert items[..k][..i] == items[..i];
      if Lower(r[i]) == Lower(item) {
        assert RemoveLast(items[..k], item, qty - removed) == RemoveLast(items[..i], item, qty - removed - 1);
        var r' := r[..i] + r[i + 1..];
        assert r'[i..] == r[k..];
        assert r'[..i] == r[..i];
        r := r';
        removed := removed + 1;
      } else {
        assert RemoveLast(items[..k], item, qty - removed) == RemoveLast(items[..i], item, qty - removed) + [items[i]];
        assert r[i..] == [r[i]] + r[k..];
      }
      k := i;
    }
    if removed == qty {
      assert RemoveLast(items[..k], item, 0) == items[..k];
    } else {
      assert items[..0] == [];
    }
    assert r == r[..k] + r[k..];
  }

  // ------------------------------------------------------------ the trade

  /** What a completed trade reports. */
  datatype Trade = Trade(action: Action, qty: int)

  /** The user row after trading `q` copies: `{ Cash, Bank, [cat]: list.join(', ') }`. */
  function Traded(u: User, item: Item, action: Action, q: nat): User
  {
    var cat := CategoryField(item.kind);
    var owned := ParseList(Column(u, cat));
    var cash, bank := Amount(u.cash), Amount(u.bank);
    match action
    case Buy =>
      var p := SpendCashFirst(cash, bank, item.price * q);
      u.(cash := Some(p.cash), bank := Some(p.bank),
         columns := u.columns[cat := SerializeList(owned + Repeat(item.name, q))])
    case Sell =>
      u.(cash := Some(cash + item.price * q), bank := Some(bank),
         columns := u.columns[cat := SerializeList(RemoveLast(owned, item.name, q))])
  }

  /**
   * The Buy or Sell click and its quantity form, on the freshly read user.
   * `qty` is the form's number, None when it is not an integer.
   */
  method StoreTrade(users: Users, userId: string, item: Item, action: Action, qty: Option<int>)
    returns (r: Reply<Users, Trade>)
    requires action == Buy ==> item.price > 0
    ensures userId !in users ==> r == Reply(users, Refused(UserNotFound))
    ensures userId in users && MaxQty(users[userId], item, action) <= 0 ==>
              r == Reply(users, Refused(NothingToTrade))
    ensures r.outcome.Refused? ==> r.state == users
    ensures r.outcome.Ok? <==>
              userId in users && qty.Some? && 1 <= qty.value <= MaxQty(users[userId], item, action)
    ensures r.outcome.Ok? ==>
              r.outcome == Ok(Trade(action, qty.value)) &&
              r.state == users[userId := Traded(users[userId], item, action, qty.value)]
  {
    if userId !in users {
      return Reply(users, Refused(UserNotFound));
    }
    var user := users[userId];
    var maxQty := MaxQty(user, item, action);
    if maxQty <= 0 {
      return Reply(users, Refused(NothingToTrade));
    }
    if qty.None? || qty.value <= 0 || qty.value > maxQty {
      return Reply(users, Refused(InvalidQuantity));
    }
    var q := qty.value;
    var cat := CategoryField(item.kind);
    var cash := Amount(user.cash);
    var bank := Amount(user.bank);
    var newOwned := ParseList(Column(user, cat));
    if action == Buy {
      var totalCost := item.price * q;
      if cash >= totalCost {
        cash := cash - totalCost;
      } else {
        totalCost := totalCost - cash;
        cash := 0;
        bank := bank - totalCost;
      }
      newOwned := AddCopies(newOwned, item.name, q);
    } else {
      newOwned := RemoveFromEnd(newOwned, item.name, q);
      cash := cash + item.price * q;
    }
    var updated := user.(cash := Some(cash), bank := Some(bank),
                         columns := user.columns[cat := SerializeList(newOwned)]);
    r := Reply(users[userId := updated], Ok(Trade(action, q)));
  }

  // ------------------------------------------------------- trade properties

  /**
   * A valid buy spends exactly `price * qty` from cash and bank together
   * and leaves both non-negative when they were.
   */
  lemma BuySpendsExactly(u: User, item: Item, q: nat)
    requires item.price > 0 && 1 <= q <= MaxQty(u, item, Buy)
    requires Amount(u.cash) >= 0 && Amount(u.bank) >= 0
    ensures var v := Traded(u, item, Buy, q);
            TotalFunds(v) == TotalFunds(u) - item.price * q &&
            Amount(v.cash) >= 0 && Amount(v.bank) >= 0
  {
    MulMonotone(1, q, item.price);
    assert q * item.price == item.price * q;
  }

  lemma ListOfWellFormed(xs: seq<string>)
    requires forall x | x in xs :: WellFormedItem(x)
    ensures ParseList(SerializeList(xs)) == xs
  {
    ParseSerialize(xs);
  }

  /**
   * A valid buy appends `qty` copies and the owned count rises by `qty`,
   * never past the category's cap. The item's name must be a well-formed
   * list entry (non-empty, trimmed, no comma) to read back as itself.
   */
  lemma BuyRespectsLimit(u: User, item: Item, q: nat)
    requires item.price > 0 && 1 <= q <= MaxQty(u, item, Buy)
    requires WellFormedItem(item.name)
    ensures var v := Traded(u, item, Buy, q);
            Owned(v, item) == Owned(u, item) + Repeat(item.name, q) &&
            OwnedCount(v, item) == OwnedCount(u, item) + q &&
            BelowLimit(OwnedCount(v, item) - 1, LimitOf(CategoryField(item.kind)))
  {
    var owned := Owned(u, item);
    var xs := owned + Repeat(item.name, q);
    assert forall x | x in xs :: WellFormedItem(x);
    ListOfWellFormed(xs);
    OccAppend(owned, Repeat(item.name, q), item.name);
    OccRepeat(item.name, q);
  }

  /**
   * A valid sale removes the last `qty` matching copies, lowers the count by
   * `qty`, credits `price * qty` to cash and leaves the bank amount alone.
   */
  lemma SellFromEnd(u: User, item: Item, q: nat)
    requires 1 <= q <= MaxQty(u, item, Sell)
    ensures var v := Traded(u, item, Sell, q);
            Owned(v, item) == RemoveLast(Owned(u, item), item.name, q) &&
            OwnedCount(v, item) == OwnedCount(u, item) - q &&
            Amount(v.cash) == Amount(u.cash) + item.price * q &&
            Amount(v.bank) == Amount(u.bank)
  {
    var owned := Owned(u, item);
    RemoveLastCounts(owned, item.name, q);
    ListOfWellFormed(RemoveLast(owned, item.name, q));
  }

  // --------------------------------------------------------------- search

  /** The store items whose lower-cased name contains the query, in catalog order. */
  function MatchingItems(catalog: seq<Item>, query: string): (r: seq<Item>)
    ensures |r| <= |catalog|
    ensures forall x | x in r :: x in catalog && Contains(Lower(x.name), query)
    ensures forall x | x in catalog && Contains(Lower(x.name), query) :: x in r
  {
    if |catalog| == 0 then []
    else (if Contains(Lower(catalog[0].name), query) then [catalog[0]] else [])
         + MatchingItems(catalog[1..], query)
  }

  /** A matching item is kept as many times as the catalog lists it; any other is dropped. */
  lemma {:induction false} MatchingItemsCount(catalog: seq<Item>, query: string, x: Item)
    ensures multiset(MatchingItems(catalog, query))[x] ==
            if Contains(Lower(x.name), query) then multiset(catalog)[x] else 0
  {
    if |catalog| > 0 {
      MatchingItemsCount(catalog[1..], query, x);
      assert catalog == [catalog[0]] + catalog[1..];
    }
  }

  /**
   * Matching distributes over concatenation: the matches keep the catalog's
   * order, the matches of an earlier part before those of a later one.
   */
  lemma {:induction false} MatchingItemsAppend(a: seq<Item>, b: seq<Item>, query: string)
    ensures MatchingItems(a + b, query) == MatchingItems(a, query) + MatchingItems(b, query)
  {
    if |a| > 0 {
      var head := if Contains(Lower(a[0].name), query) then [a[0]] else [];
      assert (a + b)[0] == a[0] && (a + b)[1..] == a[1..] + b;
      assert MatchingItems(a + b, query) == head + MatchingItems(a[1..] + b, query);
      MatchingItemsAppend(a[1..], b, query);
      assert MatchingItems(a, query) == head + MatchingItems(a[1..], query);
      assert head + (MatchingItems(a[1..], query) + MatchingItems(b, query))
          == (head + MatchingItems(a[1..], query)) + MatchingItems(b, query);
    } else {
      assert a + b == b;
    }
  }

  /**
   * `/item-search name`: the caller must be registered and the query, trimmed
   * and lower-cased, must match some item.
   */
  function ItemSearch(users: Users, userId: string, catalog: seq<Item>, name: string): (r: Outcome<seq<Item>>)
    ensures userId !in users ==> r == Refused(UserNotFound)
    ensures r.Ok? ==> |r.value| > 0 && r.value == MatchingItems(catalog, Lower(Trim(name)))
    ensures userId in users && r.Refused? ==> MatchingItems(catalog, Lower(Trim(name))) == []
  {
    if userId !in users then Refused(UserNotFound)
    else
      var found := MatchingItems(catalog, Lower(Trim(name)));
      if |found| == 0 then Refused(NoResults) else Ok(found)
  }
}
