// functions/Nazar.js: Madam Nazar's store. Items are shown four to a page;
// each Buy/Sell button carries the item's name in its id; purchases go to
// the Treasure list.
module Nazar {
  import opened Text
  import opened Records
  import opened InventoryMutation
  import opened Funds

  /** A store entry; the price is read through `safeNumber`. */
  datatype Curio = Curio(name: string, price: Option<int>)

  const ItemsPerPage := 4

  // ------------------------------------------------------------- pages

  /** `Math.ceil(items.length / ITEMS_PER_PAGE)` */
  function PageCount(n: nat): (r: nat)
    ensures r * ItemsPerPage >= n
    ensures r > 0 ==> (r - 1) * ItemsPerPage < n
  {
    (n + ItemsPerPage - 1) / ItemsPerPage
  }

  function MinNat(a: nat, b: nat): nat
  {
    if a <= b then a else b
  }

  /** `items.slice(page * 4, page * 4 + 4)`, clamped to the list as slice does. */
  function PageItems<T>(items: seq<T>, page: nat): (r: seq<T>)
    ensures |r| <= ItemsPerPage
    ensures page < PageCount(|items|) ==> 1 <= |r|
    ensures forall k | 0 <= k < |r| :: page * ItemsPerPage + k < |items| && r[k] == items[page * ItemsPerPage + k]
  {
    var start := MinNat(page * ItemsPerPage, |items|);
    items[start..MinNat(page * ItemsPerPage + ItemsPerPage, |items|)]
  }

  /** The first `k` pages laid end to end. */
  function Pages<T>(items: seq<T>, k: nat): seq<T>
  {
    if k == 0 then [] else Pages(items, k - 1) + PageItems(items, k - 1)
  }

  lemma {:induction false} PagesPrefix<T>(items: seq<T>, k: nat)
    ensures Pages(items, k) == items[..MinNat(k * ItemsPerPage, |items|)]
  {
    if k > 0 {
      PagesPrefix(items, k - 1);
      var a := MinNat((k - 1) * ItemsPerPage, |items|);
      var b := MinNat(k * ItemsPerPage, |items|);
      assert items[..b] == items[..a] + items[a..b];
    }
  }

  /** Paging through every page shows every item once, in order. */
  lemma PagesCoverItems<T>(items: seq<T>)
    ensures Pages(items, PageCount(|items|)) == items
  {
    PagesPrefix(items, PageCount(|items|));
  }

  /** `page = Math.max(0, page - 1)` */
  function PrevPage(page: nat): nat
  {
    if page == 0 then 0 else page - 1
  }

  /** `page = Math.min(Math.ceil(n / 4) - 1, page + 1)` */
  function NextPage(page: nat, n: nat): int
  {
    if PageCount(n) - 1 <= page + 1 then PageCount(n) - 1 else page + 1
  }

  /** Next is disabled when `(page + 1) * 4 >= n`. */
  predicate NextDisabled(page: nat, n: nat)
  {
    (page + 1) * ItemsPerPage >= n
  }

  /**
   * With at least one item, both buttons keep the page among the existing
   * pages, and Next is disabled exactly on the last page.
   */
  lemma PagesStayInRange(page: nat, n: nat)
    requires 0 < n && page < PageCount(n)
    ensures PrevPage(page) < PageCount(n)
    ensures 0 <= NextPage(page, n) < PageCount(n)
    ensures NextPage(page, n) == page <==> page == PageCount(n) - 1
    ensures NextDisabled(page, n) <==> page == PageCount(n) - 1
  {
  }

  // ----------------------------------------------------------- buttons

  function SkipSpaces(s: string): (r: string)
    ensures |r| <= |s|
    ensures |r| > 0 ==> !IsSpace(r[0])
  {
    if |s| > 0 && IsSpace(s[0]) then SkipSpaces(s[1..]) else s
  }

  /** `name.replace(/\s+/g, '_')`: every run of whitespace becomes one `_`. */
  function Underscored(s: string): (r: string)
    ensures |r| <= |s|
    ensures |s| > 0 ==> |r| > 0
    ensures forall i | 0 <= i < |r| :: !IsSpace(r[i])
    decreases |s|
  {
    if |s| == 0 then ""
    else if IsSpace(s[0]) then "_" + Underscored(SkipSpaces(s[1..]))
    else [s[0]] + Underscored(s[1..])
  }

  /** `raw.replace(/_/g, ' ')` */
  function Spaced(s: string): (r: string)
    ensures |r| == |s| && '_' !in r
    ensures forall i | 0 <= i < |s| :: r[i] == (if s[i] == '_' then ' ' else s[i])
  {
    seq(|s|, i requires 0 <= i < |s| => if s[i] == '_' then ' ' else s[i])
  }

  /** `${action}_${key}` */
  function ButtonId(action: string, name: string): (r: string)
    ensures |r| > |action| && r[..|action|] == action
    ensures '_' !in action ==> IndexOfChar(r, '_') == |action|
    ensures (forall i | 0 <= i < |action| :: !IsSpace(action[i])) ==> forall i | 0 <= i < |r| :: !IsSpace(r[i])
  {
    FirstUnderscore(action, Underscored(name));
    action + "_" + Underscored(name)
  }

  /** The first `_` of `action + "_" + rest` is the separator when `action` has none. */
  lemma FirstUnderscore(action: string, rest: string)
    ensures '_' !in action ==> IndexOfChar(action + "_" + rest, '_') == |action|
  {
    var id := action + "_" + rest;
    assert id[..|action|] == action && id[|action|] == '_';
    if '_' !in action {
      var i := IndexOfChar(id, '_');
      assert forall j | 0 <= j < |action| :: id[j] == action[j];
      assert forall j | 0 <= j < i :: id[j] == id[..i][j];
    }
  }

  /**
   * The decoding as written: `customId.split('_')` keeps only the first two
   * segments, so the name is cut at its first whitespace. An id without
   * `_` leaves `raw` undefined (None).
   */
  function DecodeAsWritten(id: string): (r: Option<(string, string)>)
    ensures r.Some? ==> '_' !in r.value.1
  {
    var segs := Split(id, "_");
    if |segs| < 2 then None else Some((segs[0], Spaced(segs[1])))
  }

  function IndexOfChar(s: string, c: char): (r: int)
    ensures -1 <= r < |s|
    ensures r == -1 <==> c !in s
    ensures r >= 0 ==> s[r] == c && c !in s[..r]
  {
    if |s| == 0 then -1
    else if s[0] == c then 0
    else
      var k := IndexOfChar(s[1..], c);
      if k == -1 then -1
      else
        assert s[..k + 1] == [s[0]] + s[1..][..k];
        k + 1
  }

  /** The corrected decoding: the action up to the first `_`, the name is everything after it. */
  function DecodeButton(id: string): (r: Option<(string, string)>)
    ensures r.None? <==> '_' !in id
    ensures r.Some? ==> '_' !in r.value.0 && '_' !in r.value.1
    ensures r.Some? ==> |r.value.0| < |id| && id[..|r.value.0|] == r.value.0 && id[|r.value.0|] == '_' && |r.value.1| == |id| - |r.value.0| - 1
  {
    var i := IndexOfChar(id, '_');
    if i < 0 then None else Some((id[..i], Spaced(id[i + 1..])))
  }

  /** A name the button id carries faithfully: no `_`, and its only whitespace is single spaces. */
  predicate PlainName(n: string)
  {
    forall i | 0 <= i < |n| ::
      n[i] != '_' && (IsSpace(n[i]) ==> n[i] == ' ') && (i + 1 < |n| && n[i] == ' ' ==> n[i + 1] != ' ')
  }

  lemma {:induction false} SpacedUnderscored(n: string)
    requires PlainName(n)
    ensures Spaced(Underscored(n)) == n
  {
    if |n| > 0 {
      assert PlainName(n[1..]) by {
        forall i | 0 <= i < |n[1..]|
          ensures n[1..][i] != '_' && (IsSpace(n[1..][i]) ==> n[1..][i] == ' ') &&
                  (i + 1 < |n[1..]| && n[1..][i] == ' ' ==> n[1..][i + 1] != ' ')
        {
          assert n[1..][i] == n[i + 1];
        }
      }
      SpacedUnderscored(n[1..]);
      if IsSpace(n[0]) {
        assert SkipSpaces(n[1..]) == n[1..];
        assert Underscored(n) == "_" + Underscored(n[1..]);
      } else {
        assert Underscored(n) == [n[0]] + Underscored(n[1..]);
      }
    }
  }

  /** The corrected decoding recovers the action and any plain name. */
  lemma DecodeRoundTrip(action: string, name: string)
    requires '_' !in action && PlainName(name)
    ensures DecodeButton(ButtonId(action, name)) == Some((action, name))
  {
    var id := ButtonId(action, name);
    assert id[..|action|] == action;
    assert id[|action|] == '_';
    assert id[|action| + 1..] == Underscored(name);
    SpacedUnderscored(name);
  }

  lemma {:induction false} UnderscoredWord(w: string, rest: string)
    requires forall i | 0 <= i < |w| :: !IsSpace(w[i])
    ensures Underscored(w + " " + rest) == w + "_" + Underscored(SkipSpaces(rest))
  {
    if |w| == 0 {
      assert (w + " " + rest)[1..] == rest;
    } else {
      assert (w + " " + rest)[1..] == w[1..] + " " + rest;
      UnderscoredWord(w[1..], rest);
      assert w == [w[0]] + w[1..];
    }
  }

  lemma NoCharNoMatch(x: string, c: char)
    requires c !in x
    ensures NoMatch(x, [c])
  {
    forall j | 0 <= j < |x|
      ensures !StartsWith(x[j..], [c])
    {
      assert x[j..][0] == x[j];
    }
  }

  /**
   * As written, a name whose first word is followed by a space decodes to
   * that first word alone.
   */
  lemma {:induction false} DecodeAsWrittenDropsWords(action: string, w: string, rest: string)
    requires '_' !in action && '_' !in w
    requires forall i | 0 <= i < |w| :: !IsSpace(w[i])
    ensures DecodeAsWritten(ButtonId(action, w + " " + rest)) == Some((action, w))
  {
    var x := Underscored(SkipSpaces(rest));
    UnderscoredWord(w, rest);
    var id := ButtonId(action, w + " " + rest);
    assert id == action + "_" + (w + "_" + x);
    SplitAppend(action, w + "_" + x, "_", "");
    SplitAppend(w, x, "_", "");
    NoCharNoMatch(action, '_');
    NoCharNoMatch(w, '_');
    SplitOfNoMatch(action, "_", "");
    SplitOfNoMatch(w, "_", "");
    assert "" + action == action && "" + w == w;
    assert Split(id, "_") == [action] + ([w] + Split(x, "_"));
    assert Spaced(w) == w;
  }

  lemma UnderscoredRing()
    ensures Underscored("Ring") == "Ring"
  {
    assert "Ring"[1..] == "ing" && "ing"[1..] == "ng" && "ng"[1..] == "g" && "g"[1..] == "";
  }

  lemma UnderscoredGoldRing()
    ensures Underscored("Gold Ring") == "Gold_Ring"
  {
    assert "Gold Ring" == "Gold" + " " + "Ring";
    UnderscoredWord("Gold", "Ring");
    assert SkipSpaces("Ring") == "Ring";
    UnderscoredRing();
  }

  lemma GoldRingId()
    ensures ButtonId("buy", "Gold Ring") == "buy_Gold_Ring"
  {
    UnderscoredGoldRing();
    assert ButtonId("buy", "Gold Ring") == "buy" + "_" + "Gold_Ring";
  }

  /** A two-word item: the Buy button for "Gold Ring" names "Gold" as written. */
  lemma GoldRingDecodesToGold()
    ensures DecodeAsWritten(ButtonId("buy", "Gold Ring")) == Some(("buy", "Gold"))
  {
    assert "Gold Ring" == "Gold" + " " + "Ring";
    DecodeAsWrittenDropsWords("buy", "Gold", "Ring");
  }

  /** The corrected decoding gives the whole name back for the same button. */
  lemma GoldRingDecodesCorrected()
    ensures DecodeButton(ButtonId("buy", "Gold Ring")) == Some(("buy", "Gold Ring"))
  {
    assert PlainName("Gold Ring");
    DecodeRoundTrip("buy", "Gold Ring");
  }

  /** `items.find(i => i.Name.toLowerCase() === itemName.toLowerCase())` */
  function FindCurio(items: seq<Curio>, name: string): (r: Option<Curio>)
    ensures r.Some? ==> r.value in items && Matches(r.value.name, name)
    ensures r.None? ==> forall c | c in items :: !Matches(c.name, name)
  {
    if |items| == 0 then None
    else if Matches(items[0].name, name) then Some(items[0])
    else FindCurio(items[1..], name)
  }

  /** With the corrected decoding, the click finds the item whose button it was. */
  lemma ClickFindsItem(items: seq<Curio>, k: nat, action: string)
    requires k < |items| && '_' !in action && PlainName(items[k].name)
    requires forall j | 0 <= j < k :: !Matches(items[j].name, items[k].name)
    ensures var d := DecodeButton(ButtonId(action, items[k].name));
            d == Some((action, items[k].name)) && FindCurio(items, d.value.1) == Some(items[k])
  {
    DecodeRoundTrip(action, items[k].name);
    FindFirst(items, k);
  }

  lemma {:induction false} FindFirst(items: seq<Curio>, k: nat)
    requires k < |items|
    requires forall j | 0 <= j < k :: !Matches(items[j].name, items[k].name)
    ensures FindCurio(items, items[k].name) == Some(items[k])
  {
    if k > 0 {
      FindFirst(items[1..], k - 1);
    }
  }

  // ----------------------------------------------------------- trading

  const TreasureColumn := "Treasure"

  /** The Treasure list as the store reads it. */
  function Treasure(u: User): seq<string>
  {
    ParseList(Column(u, TreasureColumn))
  }

  /**
   * The user after buying `c`: cash pays first; the bank is written only
   * when cash falls short, otherwise its stored value is left as it was.
   */
  function Bought(u: User, c: Curio): User
  {
    var cash, bank, price := Amount(u.cash), Amount(u.bank), Amount(c.price);
    var bought := WithColumn(u, TreasureColumn, SerializeList(Treasure(u) + [c.name]));
    if cash >= price then bought.(cash := Some(cash - price))
    else bought.(cash := Some(0), bank := Some(bank - (price - cash)))
  }

  /** A buy click for `item`; refused when cash and bank together fall short. */
  method BuyCurio(users: Users, userId: string, item: Curio) returns (r: Reply<Users, Curio>)
    ensures userId !in users ==> r == Reply(users, Refused(UserNotFound))
    ensures r.outcome.Refused? ==> r.state == users
    ensures r.outcome.Ok? <==>
              userId in users && Amount(users[userId].cash) + Amount(users[userId].bank) >= Amount(item.price)
    ensures r.outcome.Ok? ==> r.outcome == Ok(item) && r.state == users[userId := Bought(users[userId], item)]
  {
    if userId !in users {
      return Reply(users, Refused(UserNotFound));
    }
    var user := users[userId];
    var owned := Treasure(user);
    var price := Amount(item.price);
    var remaining := price;
    var cash := Amount(user.cash);
    var bank := Amount(user.bank);
    if cash + bank < price {
      return Reply(users, Refused(InsufficientFunds));
    }
    if cash >= remaining {
      user := user.(cash := Some(cash - remaining));
    } else {
      remaining := remaining - cash;
      user := user.(cash := Some(0));
      user := user.(bank := Some(bank - remaining));
    }
    owned := owned + [item.name];
    user := WithColumn(user, TreasureColumn, SerializeList(owned));
    r := Reply(users[userId := user], Ok(item));
  }

  /**
   * A buy spends exactly the price, cash first, keeps both balances
   * non-negative, and appends the name to Treasure (for a well-formed name).
   */
  lemma BoughtFacts(u: User, c: Curio)
    requires Amount(u.cash) + Amount(u.bank) >= Amount(c.price)
    ensures var v := Bought(u, c);
            var p := SpendCashFirst(Amount(u.cash), Amount(u.bank), Amount(c.price));
            Amount(v.cash) == p.cash && Amount(v.bank) == p.bank &&
            Amount(v.cash) + Amount(v.bank) == Amount(u.cash) + Amount(u.bank) - Amount(c.price)
    ensures Amount(u.cash) >= Amount(c.price) ==> Bought(u, c).bank == u.bank
    ensures Amount(u.cash) >= 0 && Amount(u.bank) >= 0 && Amount(c.price) >= 0 ==>
              Amount(Bought(u, c).cash) >= 0 && Amount(Bought(u, c).bank) >= 0
    ensures WellFormedItem(c.name) ==> Treasure(Bought(u, c)) == Treasure(u) + [c.name]
  {
    if WellFormedItem(c.name) {
      ParseSerialize(Treasure(u) + [c.name]);
    }
  }

  /** `owned.indexOf(name)`: exact, case-sensitive. */
  function IndexOf(xs: seq<string>, x: string): (r: int)
    ensures -1 <= r < |xs|
    ensures r == -1 <==> x !in xs
    ensures r >= 0 ==> xs[r] == x && x !in xs[..r]
  {
    if |xs| == 0 then -1
    else if xs[0] == x then 0
    else
      var k := IndexOf(xs[1..], x);
      if k == -1 then -1
      else
        assert xs[..k + 1] == [xs[0]] + xs[1..][..k];
        k + 1
  }

  /** The user after selling `c` found at index `i` of the Treasure list. */
  function Sold(u: User, c: Curio, i: nat): User
    requires i < |Treasure(u)|
  {
    var owned := Treasure(u);
    WithColumn(u, TreasureColumn, SerializeList(owned[..i] + owned[i + 1..])).(cash := Some(Amount(u.cash) + Amount(c.price)))
  }

  /** A sell click for `item`; refused when the exact name is not in Treasure. */
  method SellCurio(users: Users, userId: string, item: Curio) returns (r: Reply<Users, Curio>)
    ensures userId !in users ==> r == Reply(users, Refused(UserNotFound))
    ensures r.outcome.Refused? ==> r.state == users
    ensures r.outcome.Ok? <==> userId in users && item.name in Treasure(users[userId])
    ensures r.outcome.Ok? ==> r.outcome == Ok(item)
    ensures r.outcome.Ok? ==>
              r.state == users[userId := Sold(users[userId], item, IndexOf(Treasure(users[userId]), item.name))]
  {
    if userId !in users {
      return Reply(users, Refused(UserNotFound));
    }
    var user := users[userId];
    var owned := Treasure(user);
    var index := IndexOf(owned, item.name);
    if index == -1 {
      return Reply(users, Refused(ItemNotOwned));
    }
    owned := owned[..index] + owned[index + 1..];
    user := WithColumn(user, TreasureColumn, SerializeList(owned));
    user := user.(cash := Some(Amount(user.cash) + Amount(item.price)));
    r := Reply(users[userId := user], Ok(item));
  }

  /**
   * A sale removes one copy, the first with exactly that spelling, keeps
   * the others in order, credits the price to cash and leaves the bank.
   */
  lemma SoldFacts(u: User, c: Curio)
    requires c.name in Treasure(u)
    ensures var i := IndexOf(Treasure(u), c.name);
            var v := Sold(u, c, i);
            Treasure(v) == Treasure(u)[..i] + Treasure(u)[i + 1..] &&
            multiset(Treasure(v)) + multiset{c.name} == multiset(Treasure(u)) &&
            Amount(v.cash) == Amount(u.cash) + Amount(c.price) && v.bank == u.bank
  {
    var owned := Treasure(u);
    var i := IndexOf(owned, c.name);
    var rest := owned[..i] + owned[i + 1..];
    SpliceOut(owned, i);
    ParseSerialize(rest);
    assert Treasure(Sold(u, c, i)) == rest;
  }

  /** Buying a well-formed name and then selling it gives back the Treasure list and the funds. */
  lemma BuyThenSell(u: User, c: Curio)
    requires WellFormedItem(c.name) && c.name !in Treasure(u)
    requires Amount(u.cash) + Amount(u.bank) >= Amount(c.price)
    ensures var v := Bought(u, c);
            c.name in Treasure(v) &&
            var w := Sold(v, c, IndexOf(Treasure(v), c.name));
            Treasure(w) == Treasure(u) &&
            Amount(w.cash) + Amount(w.bank) == Amount(u.cash) + Amount(u.bank)
  {
    var v := Bought(u, c);
    BoughtFacts(u, c);
    var t := Treasure(u);
    assert Treasure(v) == t + [c.name];
    assert (t + [c.name])[|t|] == c.name;
    var i := IndexOf(Treasure(v), c.name);
    assert forall j | 0 <= j < |t| :: Treasure(v)[j] != c.name by {
      forall j | 0 <= j < |t| ensures Treasure(v)[j] != c.name {
        assert Treasure(v)[j] == t[j];
      }
    }
    assert i == |t|;
    SoldFacts(v, c);
    assert (t + [c.name])[..|t|] == t;
  }

  // ------------------------------------------------------------ clicks

  /** `items.filter(i => i && i.Name)`: entries without a name are never shown. */
  function Stocked(items: seq<Curio>): (r: seq<Curio>)
    ensures forall c | c in r :: c in items && c.name != ""
    ensures forall c | c in items && c.name != "" :: c in r
  {
    if |items| == 0 then []
    else (if items[0].name != "" then [items[0]] else []) + Stocked(items[1..])
  }

  /**
   * When a click on a decoded button `d` goes through: the id decoded, the
   * name matches a store item, and the user can pay for a buy or owns the
   * exact name for a sell.
   */
  predicate ClickSucceeds(users: Users, userId: string, items: seq<Curio>, d: Option<(string, string)>)
  {
    d.Some? && FindCurio(items, d.value.1).Some? && userId in users &&
    var c := FindCurio(items, d.value.1).value;
    var u := users[userId];
    (d.value.0 == "buy" && Amount(u.cash) + Amount(u.bank) >= Amount(c.price)) ||
    (d.value.0 == "sell" && c.name in Treasure(u))
  }

  /** What a click on the decoded button `d` may answer, and the users it leaves. */
  predicate ClickOutcome(users: Users, userId: string, items: seq<Curio>, d: Option<(string, string)>, r: Reply<Users, Curio>)
  {
    (r.outcome.Refused? ==> r.state == users) &&
    (d.None? ==> r == Reply(users, Refused(InvalidAction))) &&
    (d.Some? && FindCurio(items, d.value.1).None? ==> r == Reply(users, Refused(ItemNotFound))) &&
    (r.outcome.Ok? <==> ClickSucceeds(users, userId, items, d)) &&
    (r.outcome.Ok? ==>
       d.Some? && FindCurio(items, d.value.1) == Some(r.outcome.value) && userId in users &&
       var u := users[userId];
       var c := r.outcome.value;
       (d.value.0 == "buy" && r.state == users[userId := Bought(u, c)]) ||
       (d.value.0 == "sell" && r.state == users[userId := Sold(u, c, IndexOf(Treasure(u), c.name))]))
  }

  /** The click once the button id is decoded: find the item, then buy or sell it. */
  method Click(users: Users, userId: string, items: seq<Curio>, decoded: Option<(string, string)>)
    returns (r: Reply<Users, Curio>)
    ensures ClickOutcome(users, userId, items, decoded, r)
  {
    if decoded.None? {
      return Reply(users, Refused(InvalidAction));
    }
    var (action, itemName) := decoded.value;
    var item := FindCurio(items, itemName);
    if item.None? {
      return Reply(users, Refused(ItemNotFound));
    }
    if action == "buy" {
      r := BuyCurio(users, userId, item.value);
    } else if action == "sell" {
      r := SellCurio(users, userId, item.value);
    } else {
      r := Reply(users, Refused(InvalidAction));
    }
  }

  /**
   * A Buy or Sell click with button id `id`, decoded as written with
   * `split('_')`; a click that goes through buys or sells the item whose
   * name is the decoded one.
   */
  method Collect(users: Users, userId: string, items: seq<Curio>, id: string) returns (r: Reply<Users, Curio>)
    ensures ClickOutcome(users, userId, items, DecodeAsWritten(id), r)
    ensures r.outcome.Ok? <==> ClickSucceeds(users, userId, items, DecodeAsWritten(id))
  {
    r := Click(users, userId, items, DecodeAsWritten(id));
  }

  /** The same click with the corrected decoding, which keeps the whole name. */
  method CollectCorrected(users: Users, userId: string, items: seq<Curio>, id: string) returns (r: Reply<Users, Curio>)
    ensures ClickOutcome(users, userId, items, DecodeButton(id), r)
    ensures r.outcome.Ok? <==> ClickSucceeds(users, userId, items, DecodeButton(id))
  {
    r := Click(users, userId, items, DecodeButton(id));
  }

  lemma GoldRingIdDecodes()
    ensures DecodeAsWritten("buy_Gold_Ring") == Some(("buy", "Gold"))
    ensures DecodeButton("buy_Gold_Ring") == Some(("buy", "Gold Ring"))
  {
    GoldRingId();
    GoldRingDecodesToGold();
    GoldRingDecodesCorrected();
  }

  /**
   * As written, the Buy button of a store holding only "Gold Ring" answers
   * "That item has vanished" and changes no user, whatever their funds.
   */
  lemma GoldRingClickVanishes(users: Users, userId: string, price: Option<int>, r: Reply<Users, Curio>)
    requires ClickOutcome(users, userId, [Curio("Gold Ring", price)], DecodeAsWritten("buy_Gold_Ring"), r)
    ensures r == Reply(users, Refused(ItemNotFound))
  {
    GoldRingIdDecodes();
    assert |Lower("Gold")| != |Lower("Gold Ring")|;
    assert FindCurio([Curio("Gold Ring", price)], "Gold").None?;
  }

  /** With the corrected decoding the same click buys the ring for a user who can pay. */
  lemma GoldRingClickBuys(users: Users, userId: string, price: Option<int>, r: Reply<Users, Curio>)
    requires ClickOutcome(users, userId, [Curio("Gold Ring", price)], DecodeButton("buy_Gold_Ring"), r)
    requires userId in users && Amount(users[userId].cash) + Amount(users[userId].bank) >= Amount(price)
    ensures r == Reply(users[userId := Bought(users[userId], Curio("Gold Ring", price))], Ok(Curio("Gold Ring", price)))
  {
    var c := Curio("Gold Ring", price);
    GoldRingIdDecodes();
    assert Matches(c.name, "Gold Ring");
    assert FindCurio([c], "Gold Ring") == Some(c);
    assert "buy" != "sell";
    assert ClickSucceeds(users, userId, [c], DecodeButton("buy_Gold_Ring"));
    assert r.outcome == Ok(c);
  }
}
