// The count dictionaries the inventory views build: a plain object from
// lower-cased item name to a count. Object.entries lists keys in the order
// they were first set, so a table is a sequence of entries in that order.
module Counts {
  import opened Text
  import opened InventoryMutation

  datatype Entry = Entry(key: string, count: nat)

  type Table = seq<Entry>

  predicate Has(t: Table, k: string)
  {
    |t| > 0 && (t[0].key == k || Has(t[1..], k))
  }

  /** `t[k] || 0` */
  function Get(t: Table, k: string): nat
  {
    if |t| == 0 then 0
    else if t[0].key == k then t[0].count
    else Get(t[1..], k)
  }

  /** No key is listed twice, as in any JavaScript object. */
  predicate DistinctKeys(t: Table)
  {
    |t| == 0 || (!Has(t[1..], t[0].key) && DistinctKeys(t[1..]))
  }

  /** `t[k] = v`: overwrite the value in place, or append a new key. */
  function Assign(t: Table, k: string, v: nat): Table
  {
    if |t| == 0 then [Entry(k, v)]
    else if t[0].key == k then [Entry(k, v)] + t[1..]
    else [t[0]] + Assign(t[1..], k, v)
  }

  /** The sum of all counts. */
  function Total(t: Table): nat
  {
    if |t| == 0 then 0 else t[0].count + Total(t[1..])
  }

  lemma {:induction false} GetAbsent(t: Table, k: string)
    requires !Has(t, k)
    ensures Get(t, k) == 0
  {
    if |t| > 0 {
      GetAbsent(t[1..], k);
    }
  }

  lemma {:induction false} AssignGetHas(t: Table, k: string, v: nat, k': string)
    ensures Get(Assign(t, k, v), k') == if k' == k then v else Get(t, k')
    ensures Has(Assign(t, k, v), k') <==> Has(t, k') || k' == k
  {
    if |t| > 0 {
      var r := Assign(t, k, v);
      if t[0].key == k {
        assert r[1..] == t[1..];
      } else {
        AssignGetHas(t[1..], k, v, k');
        assert r[1..] == Assign(t[1..], k, v);
      }
    }
  }

  lemma {:induction false} AssignDistinct(t: Table, k: string, v: nat)
    requires DistinctKeys(t)
    ensures DistinctKeys(Assign(t, k, v))
    ensures Total(Assign(t, k, v)) == Total(t) - Get(t, k) + v
  {
    if |t| > 0 {
      var r := Assign(t, k, v);
      if t[0].key == k {
        assert r[1..] == t[1..];
      } else {
        AssignDistinct(t[1..], k, v);
        assert r[1..] == Assign(t[1..], k, v);
        AssignGetHas(t[1..], k, v, t[0].key);
      }
    }
  }

  lemma {:induction false} AssignNew(t: Table, k: string, v: nat)
    requires !Has(t, k)
    ensures Assign(t, k, v) == t + [Entry(k, v)]
  {
    if |t| > 0 {
      AssignNew(t[1..], k, v);
      assert t == [t[0]] + t[1..];
    }
  }

  lemma {:induction false} SnocFacts(b: Table, e: Entry, k: string)
    ensures Has(b + [e], k) <==> Has(b, k) || e.key == k
    ensures Get(b + [e], k) == if Has(b, k) then Get(b, k) else if e.key == k then e.count else 0
    ensures DistinctKeys(b + [e]) <==> DistinctKeys(b) && !Has(b, e.key)
  {
    if |b| > 0 {
      assert (b + [e])[1..] == b[1..] + [e];
      SnocFacts(b[1..], e, k);
      SnocFacts(b[1..], e, b[0].key);
    } else {
      assert ([e])[1..] == [];
    }
  }

  // ---------------------------------------------------------------- tally

  /** Starting from `t`, `t[key] = (t[key] || 0) + 1` for each item in order. */
  function TallyFrom(t: Table, items: seq<string>): Table
  {
    if |items| == 0 then t
    else
      var prev := TallyFrom(t, items[..|items| - 1]);
      var key := Lower(items[|items| - 1]);
      Assign(prev, key, Get(prev, key) + 1)
  }

  /** The table `countDuplicates` builds from a parsed list. */
  function Tally(items: seq<string>): (r: Table)
    ensures items == [] ==> r == []
    ensures DistinctKeys(r)
    ensures forall k | IsLowerKey(k) :: Get(r, k) == Occ(items, k)
    ensures forall k | Has(r, k) :: IsLowerKey(k) && Occ(items, k) > 0
    ensures Total(r) == |items|
  {
    TallyFromFacts([], items);
    TallyFrom([], items)
  }

  /** A key that `toLowerCase()` leaves unchanged. */
  predicate IsLowerKey(k: string)
  {
    Lower(k) == k
  }

  lemma {:induction false} OccSnoc(items: seq<string>, k: string)
    requires |items| > 0
    ensures Occ(items, k) == Occ(items[..|items| - 1], k) + (if Matches(items[|items| - 1], k) then 1 else 0)
  {
    assert items == items[..|items| - 1] + [items[|items| - 1]];
    OccAppend(items[..|items| - 1], [items[|items| - 1]], k);
  }

  /**
   * Counting adds, for every lower-case key, the number of items that
   * match it case-insensitively; only lower-case keys are ever added, each
   * once, and the total grows by the number of items.
   */
  lemma {:induction false} TallyFromFacts(t: Table, items: seq<string>)
    requires DistinctKeys(t)
    ensures DistinctKeys(TallyFrom(t, items))
    ensures forall k | IsLowerKey(k) :: Get(TallyFrom(t, items), k) == Get(t, k) + Occ(items, k)
    ensures forall k :: Has(TallyFrom(t, items), k) <==> Has(t, k) || (IsLowerKey(k) && Occ(items, k) > 0)
    ensures Total(TallyFrom(t, items)) == Total(t) + |items|
  {
    if |items| > 0 {
      var init := items[..|items| - 1];
      var last := items[|items| - 1];
      var prev := TallyFrom(t, init);
      var key := Lower(last);
      TallyFromFacts(t, init);
      AssignDistinct(prev, key, Get(prev, key) + 1);
      LowerIdempotent(last);
      forall k
        ensures IsLowerKey(k) ==> Get(TallyFrom(t, items), k) == Get(t, k) + Occ(items, k)
        ensures Has(TallyFrom(t, items), k) <==> Has(t, k) || (IsLowerKey(k) && Occ(items, k) > 0)
      {
        AssignGetHas(prev, key, Get(prev, key) + 1, k);
        OccSnoc(items, k);
        if IsLowerKey(k) {
          assert Matches(last, k) <==> key == k;
        }
        if k == key {
          assert IsLowerKey(k);
        }
      }
    }
  }

  lemma {:induction false} TallyFromAppend(t: Table, a: seq<string>, b: seq<string>)
    ensures TallyFrom(TallyFrom(t, a), b) == TallyFrom(t, a + b)
  {
    if |b| > 0 {
      assert (a + b)[..|a + b| - 1] == a + b[..|b| - 1];
      assert (a + b)[|a + b| - 1] == b[|b| - 1];
      TallyFromAppend(t, a, b[..|b| - 1]);
    } else {
      assert a + b == a;
    }
  }

  /** The `forEach` that bumps one count per item. */
  method CountInto(t: Table, items: seq<string>) returns (counts: Table)
    ensures counts == TallyFrom(t, items)
  {
    counts := t;
    var i := 0;
    while i < |items|
      invariant 0 <= i <= |items|
      invariant counts == TallyFrom(t, items[..i])
    {
      assert items[..i + 1][..i] == items[..i];
      var key := Lower(items[i]);
      counts := Assign(counts, key, Get(counts, key) + 1);
      i := i + 1;
    }
    assert items[..|items|] == items;
  }

  /** `countDuplicates(raw)` with the list split on `sep`. */
  method CountDuplicates(raw: string, sep: string) returns (counts: Table)
    requires |sep| > 0
    ensures raw == "" ==> counts == []
    ensures counts == Tally(ParseItems(raw, sep))
  {
    if raw == "" {
      return [];
    }
    var list := ParseItems(raw, sep);
    counts := CountInto([], list);
  }

  // ---------------------------------------------------------------- merges

  /** `{...a, ...b}`: keys of `a` first, then new keys of `b`; `b`'s values win. */
  function Spread(a: Table, b: Table): Table
  {
    if |b| == 0 then a
    else Assign(Spread(a, b[..|b| - 1]), b[|b| - 1].key, b[|b| - 1].count)
  }

  /** `for ([k, v] of Object.entries(b)) a[k] = (a[k] || 0) + v` */
  function AddAll(a: Table, b: Table): Table
  {
    if |b| == 0 then a
    else
      var prev := AddAll(a, b[..|b| - 1]);
      var e := b[|b| - 1];
      Assign(prev, e.key, Get(prev, e.key) + e.count)
  }

  /** In a spread the later table wins every key it has. */
  lemma {:induction false} SpreadFacts(a: Table, b: Table)
    requires DistinctKeys(a) && DistinctKeys(b)
    ensures DistinctKeys(Spread(a, b))
    ensures forall k :: Get(Spread(a, b), k) == if Has(b, k) then Get(b, k) else Get(a, k)
    ensures forall k :: Has(Spread(a, b), k) <==> Has(a, k) || Has(b, k)
  {
    if |b| > 0 {
      var init := b[..|b| - 1];
      var e := b[|b| - 1];
      assert b == init + [e];
      SnocFacts(init, e, e.key);
      SpreadFacts(a, init);
      AssignDistinct(Spread(a, init), e.key, e.count);
      forall k
        ensures Get(Spread(a, b), k) == if Has(b, k) then Get(b, k) else Get(a, k)
        ensures Has(Spread(a, b), k) <==> Has(a, k) || Has(b, k)
      {
        SnocFacts(init, e, k);
        AssignGetHas(Spread(a, init), e.key, e.count, k);
      }
    }
  }

  /** Merging by addition adds the two counts of every key. */
  lemma {:induction false} AddAllFacts(a: Table, b: Table)
    requires DistinctKeys(a) && DistinctKeys(b)
    ensures DistinctKeys(AddAll(a, b))
    ensures forall k :: Get(AddAll(a, b), k) == Get(a, k) + Get(b, k)
    ensures forall k :: Has(AddAll(a, b), k) <==> Has(a, k) || Has(b, k)
  {
    if |b| > 0 {
      var init := b[..|b| - 1];
      var e := b[|b| - 1];
      assert b == init + [e];
      SnocFacts(init, e, e.key);
      AddAllFacts(a, init);
      var prev := AddAll(a, init);
      AssignDistinct(prev, e.key, Get(prev, e.key) + e.count);
      forall k
        ensures Get(AddAll(a, b), k) == Get(a, k) + Get(b, k)
        ensures Has(AddAll(a, b), k) <==> Has(a, k) || Has(b, k)
      {
        SnocFacts(init, e, k);
        AssignGetHas(prev, e.key, Get(prev, e.key) + e.count, k);
        if !Has(init, k) {
          GetAbsent(init, k);
        }
      }
    }
  }

  /** The merge loop of the consumables block. */
  method MergeAdd(acc: Table, more: Table) returns (r: Table)
    ensures r == AddAll(acc, more)
  {
    r := acc;
    var i := 0;
    while i < |more|
      invariant 0 <= i <= |more|
      invariant r == AddAll(acc, more[..i])
    {
      assert more[..i + 1][..i] == more[..i];
      var e := more[i];
      r := Assign(r, e.key, Get(r, e.key) + e.count);
      i := i + 1;
    }
    assert more[..|more|] == more;
  }
}
