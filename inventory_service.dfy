// services/inventoryService.js: the inventory view served to the web
// front end. Lists are split on ',', consumable counts are merged by
// object spread and weapon counts keep empty segments.
module InventoryService {
  import opened Text
  import opened Records
  import opened InventoryMutation
  import opened Counts

  /** `capitalizeWords`: every ", "-segment becomes first-upper, rest-lower. */
  function CapitalizeWords(s: string): (r: string)
    ensures Split(r, ", ") == CapitalizeEach(Split(s, ", "))
    ensures |Split(r, ", ")| == |Split(s, ", ")|
  {
    CapitalizedSegments(s);
    Join(CapitalizeEach(Split(s, ", ")), ", ")
  }

  function CapitalizeEach(xs: seq<string>): (r: seq<string>)
    ensures |r| == |xs|
    ensures forall i | 0 <= i < |xs| :: r[i] == CapitalizeWord(xs[i])
  {
    seq(|xs|, i requires 0 <= i < |xs| => CapitalizeWord(xs[i]))
  }

  /** Case mapping never creates or removes a ',' or a ' '. */
  lemma CapitalizeWordKeepsPunctuation(w: string)
    ensures |CapitalizeWord(w)| == |w|
    ensures forall j | 0 <= j < |w| ::
              (CapitalizeWord(w)[j] == ',' <==> w[j] == ',') &&
              (CapitalizeWord(w)[j] == ' ' <==> w[j] == ' ')
  {
  }

  lemma CapitalizeWordNoMatch(w: string)
    requires NoMatch(w, ", ")
    ensures NoMatch(CapitalizeWord(w), ", ")
  {
    var c := CapitalizeWord(w);
    CapitalizeWordKeepsPunctuation(w);
    forall j | 0 <= j < |c|
      ensures !StartsWith(c[j..], ", ")
    {
      if j + 2 <= |c| {
        assert !StartsWith(w[j..], ", ");
        assert w[j..][..2] == [w[j], w[j + 1]];
        assert c[j..][..2] == [c[j], c[j + 1]];
      }
    }
  }

  /** Capitalizing every segment keeps the segments apart when joined again. */
  lemma CapitalizedSegments(s: string)
    ensures Split(Join(CapitalizeEach(Split(s, ", ")), ", "), ", ") == CapitalizeEach(Split(s, ", "))
  {
    var segs := Split(s, ", ");
    SplitSegments(s, ", ");
    forall i | 0 <= i < |segs|
      ensures NoMatch(CapitalizeEach(segs)[i], ", ")
    {
      CapitalizeWordNoMatch(segs[i]);
    }
    SplitJoin(CapitalizeEach(segs), ", ");
  }

  // ------------------------------------------------------------ display

  /** What `formatCounts` returns: the empty message, or one line per entry. */
  datatype Shown = Message(text: string) | Lines(lines: seq<string>)

  function Label(e: Entry): string
  {
    CapitalizeFirst(e.key) + (if e.count > 1 then " (" + NatToString(e.count) + "x)" else "")
  }

  /** `formatCounts(counts, emptyMsg)` */
  function FormatCounts(t: Table, emptyMsg: string): (r: Shown)
    ensures |t| == 0 <==> r == Message(emptyMsg)
    ensures r.Lines? ==>
              |r.lines| == |t| &&
              forall i | 0 <= i < |t| ::
                StartsWith(r.lines[i], CapitalizeFirst(t[i].key)) &&
                (|r.lines[i]| > |t[i].key| <==> t[i].count > 1) &&
                r.lines[i] == CapitalizeFirst(t[i].key) +
                              (if t[i].count > 1 then " (" + NatToString(t[i].count) + "x)" else "")
  {
    if |t| == 0 then Message(emptyMsg)
    else Lines(seq(|t|, i requires 0 <= i < |t| => Label(t[i])))
  }

  // ------------------------------------------------------------- tables

  function ListTable(u: User, c: string): Table
  {
    Tally(ParseList(Column(u, c)))
  }

  /** `{...Food, ...Potion, ...Hunting, ...Consumable}` of the four tallies. */
  function ConsumableTable(u: User): Table
  {
    Spread(Spread(Spread(Spread([], ListTable(u, "Food")), ListTable(u, "Potion")),
                  ListTable(u, "Hunting")), ListTable(u, "Consumable"))
  }

  /**
   * A key present in several consumable columns shows the count of the
   * last of Food, Potion, Hunting, Consumable that has it, not the sum.
   */
  lemma ConsumablesLastWins(u: User)
    ensures forall k :: Get(ConsumableTable(u), k) ==
              if Has(ListTable(u, "Consumable"), k) then Get(ListTable(u, "Consumable"), k)
              else if Has(ListTable(u, "Hunting"), k) then Get(ListTable(u, "Hunting"), k)
              else if Has(ListTable(u, "Potion"), k) then Get(ListTable(u, "Potion"), k)
              else Get(ListTable(u, "Food"), k)
  {
    var f, p, h, c := ListTable(u, "Food"), ListTable(u, "Potion"), ListTable(u, "Hunting"), ListTable(u, "Consumable");
    SpreadFacts([], f);
    SpreadFacts(Spread([], f), p);
    SpreadFacts(Spread(Spread([], f), p), h);
    SpreadFacts(Spread(Spread(Spread([], f), p), h), c);
    forall k ensures Get(Spread([], f), k) == Get(f, k) {
      if !Has(f, k) {
        GetAbsent(f, k);
      }
    }
  }

  const GunColumns: seq<string> := ["Bow", "Pistol", "Revolver", "Rifle", "Repeater", "Shotgun"]

  /** One weapon column's segments: split on ',' and trimmed, empties kept. */
  function GunSegments(raw: string): seq<string>
  {
    if raw == "" then [] else TrimEach(Split(raw, ","))
  }

  /** The segments of the first `n` weapon columns, in column order. */
  function GunItems(u: User, n: nat): seq<string>
    requires n <= |GunColumns|
  {
    if n == 0 then [] else GunItems(u, n - 1) + GunSegments(Column(u, GunColumns[n - 1]))
  }

  /** The `guns` block: one count per segment over the six weapon columns. */
  method GunCounts(u: User) returns (guns: Table)
    ensures guns == Tally(GunItems(u, |GunColumns|))
  {
    guns := [];
    var i := 0;
    while i < |GunColumns|
      invariant 0 <= i <= |GunColumns|
      invariant guns == Tally(GunItems(u, i))
    {
      var raw := Column(u, GunColumns[i]);
      if raw != "" {
        guns := CountInto(guns, TrimEach(Split(raw, ",")));
      }
      TallyFromAppend([], GunItems(u, i), GunSegments(raw));
      assert GunItems(u, i) + [] == GunItems(u, i);
      i := i + 1;
    }
  }

  /** The number of segments of the first `n` weapon columns matching `k`. */
  function SumOcc(u: User, n: nat, k: string): nat
    requires n <= |GunColumns|
  {
    if n == 0 then 0 else SumOcc(u, n - 1, k) + Occ(GunSegments(Column(u, GunColumns[n - 1])), k)
  }

  lemma {:induction false} GunItemsOcc(u: User, n: nat, k: string)
    requires n <= |GunColumns|
    ensures Occ(GunItems(u, n), k) == SumOcc(u, n, k)
  {
    if n > 0 {
      GunItemsOcc(u, n - 1, k);
      OccAppend(GunItems(u, n - 1), GunSegments(Column(u, GunColumns[n - 1])), k);
    }
  }

  /**
   * Weapon counts add up over the six columns, and every segment counts,
   * the empty ones included (under the key "").
   */
  lemma GunCountsSum(u: User)
    ensures forall k | IsLowerKey(k) :: Get(Tally(GunItems(u, |GunColumns|)), k) == SumOcc(u, |GunColumns|, k)
    ensures Total(Tally(GunItems(u, |GunColumns|))) == |GunItems(u, |GunColumns|)|
  {
    forall k | IsLowerKey(k)
      ensures Get(Tally(GunItems(u, |GunColumns|)), k) == SumOcc(u, |GunColumns|, k)
    {
      GunItemsOcc(u, |GunColumns|, k);
    }
  }

  // --------------------------------------------------------------- view

  datatype Balances = Balances(cash: int, bank: int, stash: int, total: int)

  datatype InventoryView = InventoryView(
    balances: Balances,
    horses: Shown,
    treasure: Shown,
    guns: Shown,
    consumables: Shown,
    properties: string,
    licenses: string,
    other: string,
    coupons: int)

  /** A text column shown through `capitalizeWords`, or "None" when falsy. */
  function Capitalized(u: User, c: string): string
  {
    if Column(u, c) == "" then "None" else CapitalizeWords(Column(u, c))
  }

  /** `buildInventoryView(userData)` */
  method BuildInventoryView(u: User) returns (v: InventoryView)
    ensures v.balances.cash == Amount(u.cash) && v.balances.bank == Amount(u.bank) &&
            v.balances.stash == Amount(u.stash)
    ensures v.balances.total == v.balances.cash + v.balances.bank + v.balances.stash
    ensures v.coupons == Amount(u.coupons)
    ensures v.horses == FormatCounts(ListTable(u, "Horses"), "None")
    ensures v.treasure == FormatCounts(ListTable(u, "Treasure"), "None")
    ensures v.consumables == FormatCounts(ConsumableTable(u), "None")
    ensures v.guns == FormatCounts(Tally(GunItems(u, |GunColumns|)), "None")
    ensures v.properties == Capitalized(u, "Properties")
    ensures v.licenses == Capitalized(u, "License")
    ensures v.other == Capitalized(u, "Other")
  {
    var horses := CountDuplicates(Column(u, "Horses"), ",");
    var treasure := CountDuplicates(Column(u, "Treasure"), ",");
    var food := CountDuplicates(Column(u, "Food"), ",");
    var potion := CountDuplicates(Column(u, "Potion"), ",");
    var hunting := CountDuplicates(Column(u, "Hunting"), ",");
    var consumable := CountDuplicates(Column(u, "Consumable"), ",");
    var consumables := Spread(Spread(Spread(Spread([], food), potion), hunting), consumable);
    var guns := GunCounts(u);
    var cash, bank, stash := Amount(u.cash), Amount(u.bank), Amount(u.stash);
    v := InventoryView(
      Balances(cash, bank, stash, cash + bank + stash),
      FormatCounts(horses, "None"),
      FormatCounts(treasure, "None"),
      FormatCounts(guns, "None"),
      FormatCounts(consumables, "None"),
      Capitalized(u, "Properties"),
      Capitalized(u, "License"),
      Capitalized(u, "Other"),
      Amount(u.coupons));
  }
}
