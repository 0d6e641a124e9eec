// functions/property-search.js: find properties by a keyword in their
// name or type, step through the results, and buy or sell the one shown.
module PropertySearch {
  import opened Text
  import opened Records
  import opened InventoryMutation
  import opened Funds
  import opened Ownership

  /** `raw.toLowerCase().trim()` */
  function Keyword(raw: string): (r: string)
    ensures IsTrimmed(r) && Lower(r) == r
  {
    Trim(Lower(raw))
  }

  /** The lowercased Name or Type contains the keyword somewhere. */
  predicate Hit(p: Property, keyword: string): (r: bool)
    ensures r <==> (exists i :: OccursAt(Lower(p.name), keyword, i)) || (exists i :: OccursAt(Lower(p.kind), keyword, i))
    ensures keyword == "" ==> r
  {
    ContainsOccurs(Lower(p.name), keyword);
    ContainsOccurs(Lower(p.kind), keyword);
    Contains(Lower(p.name), keyword) || Contains(Lower(p.kind), keyword)
  }

  /** The positions from `from` on of the properties the keyword hits, in list order. */
  function HitsFrom(props: seq<Property>, keyword: string, from: nat): (r: seq<nat>)
    requires from <= |props|
    ensures forall k | 0 <= k < |r| :: from <= r[k] < |props| && Hit(props[r[k]], keyword)
    ensures forall k, l | 0 <= k < l < |r| :: r[k] < r[l]
    ensures forall i | from <= i < |props| && Hit(props[i], keyword) :: i in r
    decreases |props| - from
  {
    if from == |props| then []
    else (if Hit(props[from], keyword) then [from] else []) + HitsFrom(props, keyword, from + 1)
  }

  /**
   * The search: an empty keyword and an unknown user are refused, and so
   * is a search that hits nothing; otherwise the positions of the hits.
   */
  function Search(s: Store, userId: string, raw: string): (r: Outcome<seq<nat>>)
    ensures raw == "" ==> r == Refused(MissingArgument)
    ensures raw != "" && userId !in s.users ==> r == Refused(UserNotFound)
    ensures r.Ok? ==> |r.value| > 0
    ensures r.Ok? ==> forall i :: i in r.value <==> 0 <= i < |s.properties| && Hit(s.properties[i], Keyword(raw))
    ensures r.Ok? ==> forall k, l | 0 <= k < l < |r.value| :: r.value[k] < r.value[l]
    ensures r == Refused(NoResults) <==>
              raw != "" && userId in s.users && forall i | 0 <= i < |s.properties| :: !Hit(s.properties[i], Keyword(raw))
  {
    if raw == "" then Refused(MissingArgument)
    else if userId !in s.users then Refused(UserNotFound)
    else
      var results := HitsFrom(s.properties, Keyword(raw), 0);
      if |results| == 0 then Refused(NoResults)
      else
        assert Hit(s.properties[results[0]], Keyword(raw));
        Ok(results)
  }

  /** `setDisabled(prop.UserID !== null)` */
  predicate BuyEnabled(p: Property)
  {
    p.userId.None?
  }

  /** `setDisabled(!ownedByUser)` */
  predicate SellEnabled(p: Property, userId: string)
  {
    p.userId == Some(userId)
  }

  /** What a confirmed purchase reports: the property and the logged balances. */
  datatype Receipt = Receipt(property: Property, balanceBefore: int, balanceAfter: int)

  /** The buyer after confirm_buy; unlike the store, no type flag is touched. */
  function BuyerAfter(u: User, p: Property): User
  {
    var purse := SpendCashFirst(Amount(u.cash), Amount(u.bank), p.price);
    WithColumn(u, PropertiesColumn, AppendName(Column(u, PropertiesColumn), p.name))
      .(cash := Some(purse.cash), bank := Some(purse.bank))
  }

  /**
   * confirm_buy on the property at `index`. It does not look at the
   * property's owner again: only the disabled Buy button keeps an owned
   * property from being bought.
   */
  method ConfirmBuy(s: Store, userId: string, username: string, index: nat) returns (r: Reply<Store, Receipt>)
    requires index < |s.properties|
    ensures r.outcome.Refused? ==> r.state == s
    ensures r.outcome.Ok? <==>
              userId in s.users && Amount(s.users[userId].cash) + Amount(s.users[userId].bank) >= s.properties[index].price
    ensures r.outcome.Ok? ==>
              r.state == Store(s.users[userId := BuyerAfter(s.users[userId], s.properties[index])],
                               s.properties[index := Claimed(s.properties[index], userId, username)])
    ensures r.outcome.Ok? ==>
              r.outcome.value.property == Claimed(s.properties[index], userId, username) &&
              r.outcome.value.balanceBefore == Amount(s.users[userId].cash) + Amount(s.users[userId].bank) &&
              r.outcome.value.balanceBefore - r.outcome.value.balanceAfter == s.properties[index].price
  {
    if userId !in s.users {
      return Reply(s, Refused(UserNotFound));
    }
    var user := s.users[userId];
    var prop := s.properties[index];
    var cash := Amount(user.cash);
    var bank := Amount(user.bank);
    var price := prop.price;
    if cash + bank < price {
      return Reply(s, Refused(InsufficientFunds));
    }
    var remaining := price;
    if cash >= remaining {
      cash := cash - remaining;
    } else {
      remaining := remaining - cash;
      cash := 0;
      bank := bank - remaining;
    }
    var properties := Column(user, PropertiesColumn);
    var updated := if properties != "" then properties + ", " + prop.name else prop.name;
    prop := prop.(owner := Some(username));
    prop := prop.(userId := Some(userId));
    var buyer := WithColumn(user, PropertiesColumn, updated).(cash := Some(cash), bank := Some(bank));
    var receipt := Receipt(prop, cash + bank + price, cash + bank);
    r := Reply(Store(s.users[userId := buyer], s.properties[index := prop]), Ok(receipt));
  }

  /**
   * The Properties column after confirm_sell: the trimmed non-empty
   * ","-segments other than the name, joined with ", ", or null when none
   * remain.
   */
  function SellerAfter(u: User, p: Property): User
  {
    var kept := Without(ParseList(Column(u, PropertiesColumn)), p.name);
    var v := u.(cash := Some(Amount(u.cash) + p.price));
    if kept == [] then WithoutColumn(v, PropertiesColumn) else WithColumn(v, PropertiesColumn, SerializeList(kept))
  }

  /** confirm_sell on the property at `index`; the owner is not checked again here either. */
  method ConfirmSell(s: Store, userId: string, index: nat) returns (r: Reply<Store, Property>)
    requires index < |s.properties|
    ensures r.outcome.Refused? ==> r.state == s
    ensures r.outcome.Ok? <==> userId in s.users
    ensures r.outcome.Ok? ==>
              r.outcome.value == Released(s.properties[index]) &&
              r.state == Store(s.users[userId := SellerAfter(s.users[userId], s.properties[index])],
                               s.properties[index := Released(s.properties[index])])
  {
    if userId !in s.users {
      return Reply(s, Refused(UserNotFound));
    }
    var user := s.users[userId];
    var prop := s.properties[index];
    var salePrice := prop.price;
    var cashBefore := Amount(user.cash);
    var cleaned := Without(ParseList(Column(user, PropertiesColumn)), prop.name);
    var seller := user.(cash := Some(cashBefore + salePrice));
    if |cleaned| == 0 {
      seller := WithoutColumn(seller, PropertiesColumn);
    } else {
      seller := WithColumn(seller, PropertiesColumn, SerializeList(cleaned));
    }
    prop := prop.(owner := None);
    prop := prop.(userId := None);
    r := Reply(Store(s.users[userId := seller], s.properties[index := prop]), Ok(prop));
  }

  // ------------------------------------------------------------ lemmas

  /**
   * confirm_sell credits the listed price to cash, leaves the bank, and
   * keeps, in order, every listed name other than the one sold; what it
   * writes reads back the same way.
   */
  lemma SellerAfterFacts(u: User, p: Property)
    ensures var v := SellerAfter(u, p);
            Amount(v.cash) == Amount(u.cash) + p.price && v.bank == u.bank &&
            ParseList(Column(v, PropertiesColumn)) == Without(ParseList(Column(u, PropertiesColumn)), p.name) &&
            Tidy(v)
  {
    var kept := Without(ParseList(Column(u, PropertiesColumn)), p.name);
    var v := SellerAfter(u, p);
    if kept == [] {
      SerializedIsTidy(v, []);
    } else {
      ParseSerialize(kept);
      SerializedIsTidy(v, kept);
    }
  }

  /**
   * The logged balance before a purchase is the real one: cash and bank
   * afterwards plus the price.
   */
  lemma BuyerAfterSpends(u: User, p: Property)
    requires Amount(u.cash) + Amount(u.bank) >= p.price
    ensures var v := BuyerAfter(u, p);
            Amount(v.cash) + Amount(v.bank) + p.price == Amount(u.cash) + Amount(u.bank) &&
            (Amount(u.cash) >= p.price ==> Amount(v.bank) == Amount(u.bank))
  {
  }

  /**
   * With the buttons as rendered (Buy only on an unowned property, Sell
   * only on the caller's own), both confirmations keep each user's list
   * in step with the property list.
   */
  lemma ConfirmBuyKeepsConsistent(s: Store, userId: string, username: string, index: nat)
    requires Consistent(s) && UniqueNames(s.properties) && NamesWellFormed(s.properties)
    requires index < |s.properties| && userId in s.users && BuyEnabled(s.properties[index])
    ensures Consistent(Store(s.users[userId := BuyerAfter(s.users[userId], s.properties[index])],
                             s.properties[index := Claimed(s.properties[index], userId, username)]))
  {
    var u := s.users[userId];
    var p := s.properties[index];
    forall m
      ensures Listed(BuyerAfter(u, p), m) <==> Listed(u, m) || m == p.name
    {
      AppendNameListed(u, p.name, m);
    }
    ClaimKeepsConsistent(s, index, userId, BuyerAfter(u, p), username);
  }

  lemma ConfirmSellKeepsConsistent(s: Store, userId: string, index: nat)
    requires Consistent(s) && UniqueNames(s.properties)
    requires index < |s.properties| && userId in s.users && SellEnabled(s.properties[index], userId)
    requires Tidy(s.users[userId])
    ensures Consistent(Store(s.users[userId := SellerAfter(s.users[userId], s.properties[index])],
                             s.properties[index := Released(s.properties[index])]))
  {
    var u := s.users[userId];
    var p := s.properties[index];
    SellerAfterFacts(u, p);
    forall m
      ensures Listed(SellerAfter(u, p), m) <==> Listed(u, m) && m != p.name
    {
    }
    ReleaseKeepsConsistent(s, index, userId, SellerAfter(u, p));
  }
}
