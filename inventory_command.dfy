// functions/inventory.js and functions/Admin-Inventory-Search.js: the
// inventory overview the bot posts. Lists are split on ", " and filtered,
// consumable counts of the four food-like columns are summed, and the
// grand total leaves coupons out.
module InventoryCommand {
  import opened Text
  import opened Records
  import opened InventoryMutation
  import opened Counts
  import opened InventoryService

  /** `countDuplicates` of the commands: split on ", ", trimmed, empties dropped. */
  function CommandTable(u: User, c: string): Table
  {
    Tally(ParseItems(Column(u, c), ", "))
  }

  /** One entry of the text list: ` Name` or ` Name **Nx**`. */
  function TextLabel(e: Entry): string
  {
    " " + CapitalizeFirst(e.key) + (if e.count > 1 then " **" + NatToString(e.count) + "x**" else "")
  }

  function TextLabels(t: Table): (r: seq<string>)
    ensures |r| == |t|
    ensures forall i | 0 <= i < |t| :: r[i] == TextLabel(t[i])
  {
    seq(|t|, i requires 0 <= i < |t| => TextLabel(t[i]))
  }

  /** `formatCounts(countsObj, emptyMsg)` of the commands. */
  function FormatCountsText(t: Table, emptyMsg: string): (r: string)
    ensures |t| == 0 ==> r == emptyMsg
    ensures |t| > 0 ==> |r| > 1 && r[0] == ' ' && r[|r| - 1] == '.'
  {
    if |t| == 0 then emptyMsg
    else
      JoinStartsWithLabel(TextLabels(t));
      Join(TextLabels(t), ", ") + "."
  }

  lemma {:induction false} JoinStartsWithLabel(xs: seq<string>)
    requires |xs| > 0 && |xs[0]| > 0
    ensures |Join(xs, ", ")| >= |xs[0]| && Join(xs, ", ")[0] == xs[0][0]
  {
    if |xs| > 1 {
      assert Join(xs, ", ") == xs[0] + (", " + Join(xs[1..], ", "));
    }
  }

  lemma TextLabelCommaFree(e: Entry)
    requires ',' !in e.key
    ensures ',' !in TextLabel(e)
    ensures StartsWith(TextLabel(e), " " + CapitalizeFirst(e.key))
    ensures |TextLabel(e)| > 1 + |e.key| <==> e.count > 1
  {
    var f := CapitalizeFirst(e.key);
    assert |f| == |e.key|;
    assert forall j | 0 <= j < |f| :: f[j] != ',' by {
      forall j | 0 <= j < |f| ensures f[j] != ',' {
        assert e.key[j] != ',';
      }
    }
    if e.count > 1 {
      var n := NatToString(e.count);
      assert TextLabel(e) == " " + f + " **" + n + "x**";
      assert forall j | 0 <= j < |n| :: n[j] != ',';
    }
  }

  /**
   * When no key holds a comma, the text splits back on ", " into one label
   * per entry, each ` Name` followed by ` **Nx**` exactly when the count is
   * above one.
   */
  lemma FormatCountsTextEntries(t: Table, emptyMsg: string)
    requires |t| > 0
    requires forall i | 0 <= i < |t| :: ',' !in t[i].key
    ensures var r := FormatCountsText(t, emptyMsg);
            Split(r[..|r| - 1], ", ") == TextLabels(t) &&
            forall i | 0 <= i < |t| ::
              StartsWith(TextLabels(t)[i], " " + CapitalizeFirst(t[i].key)) &&
              (|TextLabels(t)[i]| > 1 + |t[i].key| <==> t[i].count > 1) &&
              TextLabels(t)[i] == " " + CapitalizeFirst(t[i].key) +
                                  (if t[i].count > 1 then " **" + NatToString(t[i].count) + "x**" else "")
  {
    var ls := TextLabels(t);
    forall i | 0 <= i < |t|
      ensures NoMatch(ls[i], ", ")
      ensures StartsWith(ls[i], " " + CapitalizeFirst(t[i].key))
      ensures |ls[i]| > 1 + |t[i].key| <==> t[i].count > 1
    {
      TextLabelCommaFree(t[i]);
      NoCommaNoMatch(ls[i]);
    }
    SplitJoin(ls, ", ");
    var r := FormatCountsText(t, emptyMsg);
    assert r[..|r| - 1] == Join(ls, ", ");
  }

  /** Properties, License, Other (and Guns in the admin view). */
  function ColumnDisplay(u: User, c: string, emptyMsg: string): string
  {
    if Column(u, c) == "" then emptyMsg else CapitalizeWords(Column(u, c)) + "."
  }

  /** A non-empty column is shown as its capitalized ", "-segments and a full stop. */
  lemma ColumnDisplaySegments(u: User, c: string, emptyMsg: string)
    requires Column(u, c) != ""
    ensures var d := ColumnDisplay(u, c, emptyMsg);
            |d| > 0 && d[|d| - 1] == '.' &&
            Split(d[..|d| - 1], ", ") == CapitalizeEach(Split(Column(u, c), ", "))
  {
    var d := ColumnDisplay(u, c, emptyMsg);
    assert d[..|d| - 1] == CapitalizeWords(Column(u, c));
  }

  /** `{...Food}` then Potion, Hunting and Consumable added key by key. */
  function ConsumableSum(u: User): Table
  {
    AddAll(AddAll(AddAll(CommandTable(u, "Food"), CommandTable(u, "Potion")),
                  CommandTable(u, "Hunting")), CommandTable(u, "Consumable"))
  }

  /** Every consumable key counts its matches in all four columns. */
  lemma ConsumablesSummed(u: User)
    ensures forall k | IsLowerKey(k) :: Get(ConsumableSum(u), k) ==
              Occ(ParseItems(Column(u, "Food"), ", "), k) + Occ(ParseItems(Column(u, "Potion"), ", "), k) +
              Occ(ParseItems(Column(u, "Hunting"), ", "), k) + Occ(ParseItems(Column(u, "Consumable"), ", "), k)
  {
    var f, p, h, c := CommandTable(u, "Food"), CommandTable(u, "Potion"), CommandTable(u, "Hunting"), CommandTable(u, "Consumable");
    AddAllFacts(f, p);
    AddAllFacts(AddAll(f, p), h);
    AddAllFacts(AddAll(AddAll(f, p), h), c);
  }

  const WeaponColumns: seq<string> := ["Bow", "Pistol", "Revolver", "Rifle", "Repeater", "Shotgun"]

  /** The weapons of the first `n` columns, split on ',' with empties dropped. */
  function WeaponItems(u: User, n: nat): seq<string>
    requires n <= |WeaponColumns|
  {
    if n == 0 then [] else WeaponItems(u, n - 1) + ParseList(Column(u, WeaponColumns[n - 1]))
  }

  /** The `gunCounts` loop over the six weapon columns. */
  method WeaponCounts(u: User) returns (guns: Table)
    ensures guns == Tally(WeaponItems(u, |WeaponColumns|))
  {
    guns := [];
    var i := 0;
    while i < |WeaponColumns|
      invariant 0 <= i <= |WeaponColumns|
      invariant guns == Tally(WeaponItems(u, i))
    {
      var raw := Column(u, WeaponColumns[i]);
      var items := ParseList(raw);
      if raw != "" {
        guns := CountInto(guns, items);
      }
      TallyFromAppend([], WeaponItems(u, i), items);
      assert WeaponItems(u, i) + [] == WeaponItems(u, i);
      i := i + 1;
    }
  }

  lemma {:induction false} WeaponItemsWellFormed(u: User, n: nat)
    requires n <= |WeaponColumns|
    ensures forall x | x in WeaponItems(u, n) :: WellFormedItem(x)
  {
    if n > 0 {
      WeaponItemsWellFormed(u, n - 1);
    }
  }

  /**
   * Unlike the web view, the command drops empty segments: no weapon is
   * counted under the empty key, and every key is a lower-cased weapon.
   */
  lemma WeaponCountsNoEmptyKey(u: User)
    ensures !Has(Tally(WeaponItems(u, |WeaponColumns|)), "")
    ensures Total(Tally(WeaponItems(u, |WeaponColumns|))) == |WeaponItems(u, |WeaponColumns|)|
  {
    var items := WeaponItems(u, |WeaponColumns|);
    WeaponItemsWellFormed(u, |WeaponColumns|);
    forall x | x in items
      ensures !Matches(x, "")
    {
      assert |Lower(x)| == |x| > 0;
    }
    OccNone(items, "");
  }

  lemma {:induction false} OccNone(xs: seq<string>, item: string)
    requires forall x | x in xs :: !Matches(x, item)
    ensures Occ(xs, item) == 0
  {
    if |xs| > 0 {
      assert xs[0] in xs;
      assert forall x | x in xs[1..] :: x in xs;
      OccNone(xs[1..], item);
    }
  }

  /** The embed's fields, message by message. */
  datatype Overview = Overview(
    cash: int,
    bank: int,
    stash: int,
    grandTotal: int,
    coupons: int,
    horses: string,
    guns: string,
    properties: string,
    licenses: string,
    treasure: string,
    consumables: string,
    other: string)

  /** The fields both commands compute the same way, for a given guns field. */
  function OverviewOf(u: User, guns: string): Overview
  {
    var cash, bank, stash := Amount(u.cash), Amount(u.bank), Amount(u.stash);
    Overview(cash, bank, stash, cash + bank + stash, Amount(u.coupons),
             FormatCountsText(CommandTable(u, "Horses"), "No horses owned."),
             guns,
             ColumnDisplay(u, "Properties", "No properties owned."),
             ColumnDisplay(u, "License", "No licenses owned."),
             FormatCountsText(CommandTable(u, "Treasure"), "No treasures owned."),
             FormatCountsText(ConsumableSum(u), "No consumables owned."),
             ColumnDisplay(u, "Other", "No other items owned."))
  }

  /** The shared body of the two commands, up to the guns field. */
  method BuildOverview(u: User, guns: string) returns (v: Overview)
    ensures v == OverviewOf(u, guns)
    ensures v.grandTotal == v.cash + v.bank + v.stash
  {
    var horses := CountDuplicates(Column(u, "Horses"), ", ");
    var treasure := CountDuplicates(Column(u, "Treasure"), ", ");
    var food := CountDuplicates(Column(u, "Food"), ", ");
    var potion := CountDuplicates(Column(u, "Potion"), ", ");
    var hunting := CountDuplicates(Column(u, "Hunting"), ", ");
    var consumable := CountDuplicates(Column(u, "Consumable"), ", ");
    var all := MergeAdd(food, potion);
    all := MergeAdd(all, hunting);
    all := MergeAdd(all, consumable);
    var cash, bank, stash := Amount(u.cash), Amount(u.bank), Amount(u.stash);
    v := Overview(cash, bank, stash, cash + bank + stash, Amount(u.coupons),
                  FormatCountsText(horses, "No horses owned."),
                  guns,
                  ColumnDisplay(u, "Properties", "No properties owned."),
                  ColumnDisplay(u, "License", "No licenses owned."),
                  FormatCountsText(treasure, "No treasures owned."),
                  FormatCountsText(all, "No consumables owned."),
                  ColumnDisplay(u, "Other", "No other items owned."));
  }

  /** `/inventory`: the caller's own overview; the weapon counts come from six columns. */
  method Inventory(users: Users, userId: string) returns (r: Outcome<Overview>)
    ensures userId !in users ==> r == Refused(UserNotFound)
    ensures userId in users ==>
              r == Ok(OverviewOf(users[userId],
                                 FormatCountsText(Tally(WeaponItems(users[userId], |WeaponColumns|)), "No items owned.")))
  {
    if userId !in users {
      return Refused(UserNotFound);
    }
    var u := users[userId];
    var guns := WeaponCounts(u);
    var v := BuildOverview(u, FormatCountsText(guns, "No items owned."));
    r := Ok(v);
  }

  /**
   * `/admin-inventory-search`: the admin role is checked before the user is
   * looked up; the weapons field shows the single Guns column.
   */
  method AdminInventorySearch(isAdmin: bool, users: Users, target: string) returns (r: Outcome<Overview>)
    ensures !isAdmin ==> r == Refused(PermissionDenied)
    ensures isAdmin && target !in users ==> r == Refused(UserNotFound)
    ensures isAdmin && target in users ==>
              r == Ok(OverviewOf(users[target], ColumnDisplay(users[target], "Guns", "No items owned.")))
  {
    if !isAdmin {
      return Refused(PermissionDenied);
    }
    if target !in users {
      return Refused(UserNotFound);
    }
    var u := users[target];
    var v := BuildOverview(u, ColumnDisplay(u, "Guns", "No items owned."));
    r := Ok(v);
  }
}
