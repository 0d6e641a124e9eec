// services/inventoryMutationService.js: inventory columns are stored as
// comma-separated lists; `updateInventoryItem` adds or removes N copies of
// an item in one allowed column of one user.
module InventoryMutation {
  import opened Text
  import opened Records

  /** ALLOWED_INVENTORY_COLUMNS */
  const AllowedColumns: seq<string> := [
    "Food", "Potion", "Hunting", "Consumable",
    "Bow", "Pistol", "Revolver", "Rifle", "Repeater", "Shotgun",
    "Horses", "Treasure"
  ]

  // ------------------------------------------------------ list encoding

  /** `map(i => i.trim())` */
  function TrimEach(xs: seq<string>): (r: seq<string>)
    ensures |r| == |xs|
    ensures forall i | 0 <= i < |xs| :: r[i] == Trim(xs[i])
  {
    seq(|xs|, i requires 0 <= i < |xs| => Trim(xs[i]))
  }

  /** `filter(Boolean)` on strings: drops the empty ones, keeps the order. */
  function DropEmpty(xs: seq<string>): (r: seq<string>)
  {
    if |xs| == 0 then []
    else (if xs[0] == "" then [] else [xs[0]]) + DropEmpty(xs[1..])
  }

  lemma {:induction false} DropEmptyFacts(xs: seq<string>)
    ensures forall x | x in DropEmpty(xs) :: x != "" && x in xs
    ensures (forall x | x in xs :: x != "") ==> DropEmpty(xs) == xs
  {
    if |xs| > 0 {
      DropEmptyFacts(xs[1..]);
      assert xs == [xs[0]] + xs[1..];
      if forall x | x in xs :: x != "" {
        assert forall x | x in xs[1..] :: x in xs;
        assert xs[0] in xs;
      }
    }
  }

  /** `raw ? raw.split(sep).map(trim).filter(Boolean) : []` */
  function ParseItems(raw: string, sep: string): seq<string>
    requires |sep| > 0
  {
    if raw == "" then [] else DropEmpty(TrimEach(Split(raw, sep)))
  }

  /** `parseList`: the comma-separated list stored in a column. */
  function ParseList(raw: string): (r: seq<string>)
    ensures raw == "" ==> r == []
    ensures forall x | x in r :: WellFormedItem(x)
  {
    CommaItemsWellFormed(raw);
    ParseItems(raw, ",")
  }

  /** `serializeList` */
  function SerializeList(xs: seq<string>): (r: string)
    ensures xs == [] ==> r == ""
    ensures |xs| == 1 ==> r == xs[0]
    ensures |xs| > 0 && xs[0] != "" ==> r != ""
  {
    JoinNonEmpty(xs, ", ");
    Join(xs, ", ")
  }

  /** An entry that survives a trip through a column unchanged. */
  predicate WellFormedItem(x: string)
  {
    x != "" && IsTrimmed(x) && ',' !in x
  }

  /** Every parsed entry is trimmed and non-empty, whatever the separator. */
  lemma ParseItemsShape(raw: string, sep: string)
    requires |sep| > 0
    ensures forall x | x in ParseItems(raw, sep) :: x != "" && IsTrimmed(x)
  {
    if raw != "" {
      DropEmptyFacts(TrimEach(Split(raw, sep)));
    }
  }

  /** Split on ',', no entry can hold a comma; trimmed and non-empty, each is well formed. */
  lemma CommaItemsWellFormed(raw: string)
    ensures raw == "" ==> ParseItems(raw, ",") == []
    ensures forall x | x in ParseItems(raw, ",") :: WellFormedItem(x)
  {
    if raw != "" {
      var segs := Split(raw, ",");
      SplitSegments(raw, ",");
      forall k | 0 <= k < |segs|
        ensures ',' !in Trim(segs[k])
      {
        NoMatchComma(segs[k]);
      }
      DropEmptyFacts(TrimEach(segs));
    }
  }

  /** `" " + x` for every element: what `split(',')` leaves after a ", " join. */
  function Padded(xs: seq<string>): (r: seq<string>)
    ensures |r| == |xs|
  {
    seq(|xs|, i requires 0 <= i < |xs| => " " + xs[i])
  }

  lemma {:induction false} SplitCommaOfJoin(xs: seq<string>, p: string)
    requires |xs| > 0
    requires forall i | 0 <= i < |xs| :: WellFormedItem(xs[i])
    requires ',' !in p
    ensures Split(p + Join(xs, ", "), ",") == [p + xs[0]] + Padded(xs[1..])
  {
    assert ',' !in p + xs[0];
    NoCommaNoMatch(p + xs[0]);
    if |xs| == 1 {
      SplitOfNoMatch(p + xs[0], ",", "");
      assert "" + (p + xs[0]) == p + xs[0];
    } else {
      var rest := Join(xs[1..], ", ");
      assert p + Join(xs, ", ") == (p + xs[0]) + "," + (" " + rest);
      SplitAppend(p + xs[0], " " + rest, ",", "");
      SplitOfNoMatch(p + xs[0], ",", "");
      assert "" + (p + xs[0]) == p + xs[0];
      SplitCommaOfJoin(xs[1..], " ");
      assert [" " + xs[1..][0]] + Padded(xs[1..][1..]) == Padded(xs[1..]);
    }
  }

  lemma JoinNonEmpty(xs: seq<string>, sep: string)
    ensures |xs| > 0 && xs[0] != "" ==> Join(xs, sep) != ""
  {
    if |xs| > 1 {
      assert Join(xs, sep) == xs[0] + sep + Join(xs[1..], sep);
    }
  }

  lemma TrimPadded(xs: seq<string>)
    requires |xs| > 0
    requires forall i | 0 <= i < |xs| :: WellFormedItem(xs[i])
    ensures TrimEach([xs[0]] + Padded(xs[1..])) == xs
  {
    var segs := [xs[0]] + Padded(xs[1..]);
    forall i | 0 <= i < |segs|
      ensures Trim(segs[i]) == xs[i]
    {
      if i == 0 {
        TrimOfTrimmed(xs[0]);
      } else {
        assert segs[i] == " " + xs[i];
        TrimAfterSpace(xs[i]);
      }
    }
  }

  /** `parseList(serializeList(xs)) == xs` for well-formed entries. */
  lemma ParseSerialize(xs: seq<string>)
    requires forall i | 0 <= i < |xs| :: WellFormedItem(xs[i])
    ensures ParseList(SerializeList(xs)) == xs
  {
    if |xs| > 0 {
      var raw := Join(xs, ", ");
      JoinNonEmpty(xs, ", ");
      SplitCommaOfJoin(xs, "");
      assert "" + raw == raw && "" + xs[0] == xs[0];
      assert Split(raw, ",") == [xs[0]] + Padded(xs[1..]);
      TrimPadded(xs);
      DropEmptyFacts(xs);
      assert ParseList(raw) == DropEmpty(TrimEach(Split(raw, ",")));
    }
  }

  /** Splicing out entry `i` drops exactly that entry and keeps every other one. */
  lemma SpliceOut(xs: seq<string>, i: nat)
    requires i < |xs|
    ensures forall x | x in xs[..i] + xs[i + 1..] :: x in xs
    ensures multiset(xs[..i] + xs[i + 1..]) + multiset{xs[i]} == multiset(xs)
  {
    assert xs == xs[..i] + [xs[i]] + xs[i + 1..];
  }

  /** A column's list read, written back and read again is the same list. */
  lemma SerializeParseIdempotent(raw: string)
    ensures ParseList(SerializeList(ParseList(raw))) == ParseList(raw)
    ensures SerializeList(ParseList(SerializeList(ParseList(raw)))) == SerializeList(ParseList(raw))
  {
    var xs := ParseList(raw);
    ParseSerialize(xs);
  }

  // -------------------------------------------- case-insensitive matching

  /** `x.toLowerCase() === item.toLowerCase()` */
  predicate Matches(x: string, item: string)
  {
    Lower(x) == Lower(item)
  }

  /** How many entries match `item` case-insensitively. */
  function Occ(xs: seq<string>, item: string): nat
  {
    if |xs| == 0 then 0
    else (if Matches(xs[0], item) then 1 else 0) + Occ(xs[1..], item)
  }

  /** The entries that do not match `item`, in order. */
  function Others(xs: seq<string>, item: string): seq<string>
  {
    if |xs| == 0 then []
    else (if Matches(xs[0], item) then [] else [xs[0]]) + Others(xs[1..], item)
  }

  lemma {:induction false} OccAppend(a: seq<string>, b: seq<string>, item: string)
    ensures Occ(a + b, item) == Occ(a, item) + Occ(b, item)
    ensures Others(a + b, item) == Others(a, item) + Others(b, item)
  {
    if |a| > 0 {
      assert (a + b)[1..] == a[1..] + b;
      OccAppend(a[1..], b, item);
    } else {
      assert a + b == b;
    }
  }

  function Repeat(item: string, n: nat): (r: seq<string>)
    ensures |r| == n
  {
    seq(n, _ => item)
  }

  lemma {:induction false} OccRepeat(item: string, n: nat)
    ensures Occ(Repeat(item, n), item) == n
    ensures Others(Repeat(item, n), item) == []
  {
    if n > 0 {
      assert Repeat(item, n)[1..] == Repeat(item, n - 1);
      OccRepeat(item, n - 1);
    }
  }

  // ------------------------------------------------- removal from the front

  /** The list with its first `q` case-insensitive matches of `item` removed. */
  function RemoveFirst(xs: seq<string>, item: string, q: nat): seq<string>
  {
    if q == 0 || |xs| == 0 then xs
    else if Matches(xs[0], item) then RemoveFirst(xs[1..], item, q - 1)
    else [xs[0]] + RemoveFirst(xs[1..], item, q)
  }

  function Min(a: int, b: int): int
  {
    if a <= b then a else b
  }

  /** Removal deletes exactly min(q, matches) entries, all of them matches. */
  lemma {:induction false} RemoveFirstCounts(xs: seq<string>, item: string, q: nat)
    ensures |RemoveFirst(xs, item, q)| == |xs| - Min(q, Occ(xs, item))
    ensures Occ(RemoveFirst(xs, item, q), item) == Occ(xs, item) - Min(q, Occ(xs, item))
    ensures Others(RemoveFirst(xs, item, q), item) == Others(xs, item)
  {
    if q != 0 && |xs| != 0 {
      if Matches(xs[0], item) {
        RemoveFirstCounts(xs[1..], item, q - 1);
      } else {
        RemoveFirstCounts(xs[1..], item, q);
        var r := RemoveFirst(xs[1..], item, q);
        assert ([xs[0]] + r)[1..] == r;
      }
    }
  }

  /** Earliest first: nothing after the q-th match is touched. */
  lemma {:induction false} RemoveFirstStopsEarly(a: seq<string>, b: seq<string>, item: string, q: nat)
    requires q <= Occ(a, item)
    ensures RemoveFirst(a + b, item, q) == RemoveFirst(a, item, q) + b
  {
    if q == 0 {
    } else {
      assert |a| > 0;
      assert (a + b)[0] == a[0] && (a + b)[1..] == a[1..] + b;
      if Matches(a[0], item) {
        RemoveFirstStopsEarly(a[1..], b, item, q - 1);
      } else {
        RemoveFirstStopsEarly(a[1..], b, item, q);
      }
    }
  }

  /** Asking for more copies than there are removes every match. */
  lemma {:induction false} RemoveFirstAll(xs: seq<string>, item: string, q: nat)
    requires q >= Occ(xs, item)
    ensures RemoveFirst(xs, item, q) == Others(xs, item)
  {
    if |xs| > 0 && q > 0 {
      if Matches(xs[0], item) {
        RemoveFirstAll(xs[1..], item, q - 1);
      } else {
        RemoveFirstAll(xs[1..], item, q);
      }
    } else if |xs| > 0 {
      RemoveFirstNone(xs, item, q);
    }
  }

  lemma {:induction false} RemoveFirstNone(xs: seq<string>, item: string, q: nat)
    requires Occ(xs, item) == 0
    ensures RemoveFirst(xs, item, q) == xs
    ensures Others(xs, item) == xs
  {
    if |xs| > 0 {
      RemoveFirstNone(xs[1..], item, q);
      assert xs == [xs[0]] + xs[1..];
    }
  }

  lemma {:induction false} RemoveFirstCompose(xs: seq<string>, item: string, a: nat, b: nat)
    ensures RemoveFirst(RemoveFirst(xs, item, a), item, b) == RemoveFirst(xs, item, a + b)
  {
    if a != 0 && |xs| != 0 {
      if Matches(xs[0], item) {
        RemoveFirstCompose(xs[1..], item, a - 1, b);
      } else {
        RemoveFirstCompose(xs[1..], item, a, b);
        var r := RemoveFirst(xs[1..], item, a);
        assert ([xs[0]] + r)[0] == xs[0] && ([xs[0]] + r)[1..] == r;
      }
    }
  }

  /** `findIndex(i => i.toLowerCase() === item.toLowerCase())` */
  function FirstMatch(xs: seq<string>, item: string): (r: int)
    ensures -1 <= r < |xs|
    ensures r == -1 <==> Occ(xs, item) == 0
    ensures r >= 0 ==> Matches(xs[r], item) && forall j | 0 <= j < r :: !Matches(xs[j], item)
    ensures r >= 0 ==> xs[..r] + xs[r + 1..] == RemoveFirst(xs, item, 1)
  {
    if |xs| == 0 then -1
    else if Matches(xs[0], item) then 0
    else
      var k := FirstMatch(xs[1..], item);
      if k == -1 then -1
      else
        assert xs[..k + 1] + xs[k + 2..] == [xs[0]] + (xs[1..][..k] + xs[1..][k + 1..]);
        k + 1
  }

  // ------------------------------------------------------------ the loops

  /** `for (i < quantity) items.push(item)` */
  method AddCopies(items: seq<string>, item: string, quantity: nat) returns (r: seq<string>)
    ensures r == items + Repeat(item, quantity)
  {
    r := items;
    var i := 0;
    while i < quantity
      invariant 0 <= i <= quantity
      invariant r == items + Repeat(item, i)
    {
      r := r + [item];
      i := i + 1;
    }
  }

  /** `for (i < quantity) { index = findIndex(...); if (index === -1) break; splice(index, 1) }` */
  method RemoveCopies(items: seq<string>, item: string, quantity: nat) returns (r: seq<string>)
    ensures r == RemoveFirst(items, item, quantity)
  {
    r := items;
    var i := 0;
    while i < quantity
      invariant 0 <= i <= quantity
      invariant r == RemoveFirst(items, item, i)
    {
      var index := FirstMatch(r, item);
      if index == -1 {
        RemoveFirstNone(r, item, quantity - i);
        RemoveFirstCompose(items, item, i, quantity - i);
        break;
      }
      RemoveFirstCompose(items, item, i, 1);
      r := r[..index] + r[index + 1..];
      i := i + 1;
    }
  }

  // ------------------------------------------------------ the operation

  /** What `updateInventoryItem` returns: the column and its new text. */
  datatype Written = Written(column: string, value: string)

  /** The list a successful add or remove leaves in the column. */
  function Updated(items: seq<string>, item: string, action: string, quantity: nat): seq<string>
  {
    if action == "add" then items + Repeat(item, quantity)
    else RemoveFirst(items, item, quantity)
  }

  /**
   * `updateInventoryItem`: validates its arguments, reads the column's
   * list, adds or removes `quantity` copies and writes the list back.
   * The source's default quantity of 1 is supplied by the caller.
   */
  method UpdateInventoryItem(users: Users, userId: string, column: string, item: string,
                             action: string, quantity: int)
    returns (r: Reply<Users, Written>)
    ensures userId == "" || column == "" || item == "" || action == "" ==>
              r == Reply(users, Refused(MissingArgument))
    ensures userId != "" && column != "" && item != "" && action != "" ==>
              (column !in AllowedColumns ==> r == Reply(users, Refused(InvalidColumn))) &&
              (column in AllowedColumns && quantity < 1 ==> r == Reply(users, Refused(InvalidQuantity)))
    ensures r.outcome.Refused? ==> r.state == users
    ensures r.outcome.Ok? <==>
              userId != "" && column != "" && item != "" && column in AllowedColumns &&
              quantity >= 1 && userId in users && (action == "add" || action == "remove")
    ensures r.outcome.Ok? ==>
              var items := Updated(ParseList(Column(users[userId], column)), item, action, quantity);
              r.outcome.value == Written(column, SerializeList(items)) &&
              r.state == users[userId := WithColumn(users[userId], column, SerializeList(items))]
  {
    if userId == "" || column == "" || item == "" || action == "" {
      return Reply(users, Refused(MissingArgument));
    }
    if column !in AllowedColumns {
      return Reply(users, Refused(InvalidColumn));
    }
    if quantity < 1 {
      return Reply(users, Refused(InvalidQuantity));
    }
    if userId !in users {
      return Reply(users, Refused(UserNotFound));
    }
    var items := ParseList(Column(users[userId], column));
    if action == "add" {
      items := AddCopies(items, item, quantity);
    } else if action == "remove" {
      items := RemoveCopies(items, item, quantity);
    } else {
      return Reply(users, Refused(InvalidAction));
    }
    var updated := SerializeList(items);
    r := Reply(users[userId := WithColumn(users[userId], column, updated)], Ok(Written(column, updated)));
  }

  /**
   * Reading the column back after an add gives the old list followed by
   * exactly `quantity` copies; after a remove, the old list less its first
   * min(quantity, matches) matches, with every non-matching entry kept.
   */
  lemma UpdatedReadsBack(raw: string, item: string, action: string, quantity: nat)
    requires action == "add" ==> WellFormedItem(item)
    requires action == "add" || action == "remove"
    ensures var before := ParseList(raw);
            var now := ParseList(SerializeList(Updated(before, item, action, quantity)));
            (action == "add" ==> now == before + Repeat(item, quantity) &&
                                 |now| == |before| + quantity &&
                                 Occ(now, item) == Occ(before, item) + quantity) &&
            (action == "remove" ==> |now| == |before| - Min(quantity, Occ(before, item)) &&
                                    Occ(now, item) == Occ(before, item) - Min(quantity, Occ(before, item)) &&
                                    Others(now, item) == Others(before, item))
  {
    var before := ParseList(raw);
    var items := Updated(before, item, action, quantity);
    if action == "add" {
      forall i | 0 <= i < |items|
        ensures WellFormedItem(items[i])
      {
        if i >= |before| {
          assert items[i] == item;
        } else {
          assert items[i] in before;
        }
      }
      OccAppend(before, Repeat(item, quantity), item);
      OccRepeat(item, quantity);
    } else {
      RemoveFirstKeepsWellFormed(before, item, quantity);
      RemoveFirstCounts(before, item, quantity);
    }
    ParseSerialize(items);
  }

  lemma {:induction false} RemoveFirstKeepsWellFormed(xs: seq<string>, item: string, q: nat)
    requires forall x | x in xs :: WellFormedItem(x)
    ensures forall i | 0 <= i < |RemoveFirst(xs, item, q)| :: WellFormedItem(RemoveFirst(xs, item, q)[i])
  {
    if q != 0 && |xs| != 0 {
      if Matches(xs[0], item) {
        RemoveFirstKeepsWellFormed(xs[1..], item, q - 1);
      } else {
        RemoveFirstKeepsWellFormed(xs[1..], item, q);
      }
    }
  }

  /** The two removal orders differ: the front scan keeps the last copy. */
  lemma RemovesEarliest()
    ensures RemoveFirst(["Apple", "Bread", "apple"], "APPLE", 1) == ["Bread", "apple"]
  {
    assert Lower("Apple") == Lower("APPLE") == "apple";
    assert Lower("Bread")[0] == 'b' && Lower("APPLE")[0] == 'a';
    assert ["Apple", "Bread", "apple"][1..] == ["Bread", "apple"];
    assert ["Bread", "apple"][1..] == ["apple"];
  }
}
