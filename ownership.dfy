// What ties a user's Properties column to the property list: a user lists
// a property's name exactly when the property's UserID is that user. The
// property handlers edit the ", "-separated Properties column in a few
// different ways; the edits and what they do to the listed names are
// collected here.
module Ownership {
  import opened Text
  import opened Records
  import opened InventoryMutation

  /** The Properties column split on ", ", as the property handlers read it. */
  function Holdings(u: User): seq<string>
  {
    Split(Column(u, PropertiesColumn), ", ")
  }

  /** `n` is one of the names the user's Properties column lists. */
  predicate Listed(u: User, n: string)
  {
    n != "" && n in Holdings(u)
  }

  /** No two properties share a name. */
  predicate UniqueNames(props: seq<Property>)
  {
    forall i, j | 0 <= i < j < |props| :: props[i].name != props[j].name
  }

  /** Every property name is one a Properties column can hold. */
  predicate NamesWellFormed(props: seq<Property>)
  {
    forall i | 0 <= i < |props| :: WellFormedItem(props[i].name)
  }

  /** Each user lists a property's name exactly when the property records that user. */
  predicate Consistent(s: Store)
  {
    forall i, uid | 0 <= i < |s.properties| && uid in s.users ::
      Listed(s.users[uid], s.properties[i].name) <==> s.properties[i].userId == Some(uid)
  }

  /** `prop.Owner = owner; prop.UserID = uid` */
  function Claimed(p: Property, uid: string, owner: string): (r: Property)
    ensures r.userId == Some(uid) && r.owner == Some(owner)
    ensures r.(userId := p.userId, owner := p.owner) == p
  {
    p.(userId := Some(uid), owner := Some(owner))
  }

  /** `prop.Owner = null; prop.UserID = null` */
  function Released(p: Property): (r: Property)
    ensures r.userId.None? && r.owner.None?
    ensures r.(userId := p.userId, owner := p.owner) == p
  {
    p.(userId := None, owner := None)
  }

  // ------------------------------------------------------ column edits

  /** `props ? `${props}, ${name}` : name` */
  function AppendName(props: string, name: string): string
  {
    if props == "" then name else props + ", " + name
  }

  lemma AppendNameSplits(props: string, name: string)
    requires WellFormedItem(name)
    ensures Split(AppendName(props, name), ", ") == (if props == "" then [] else Split(props, ", ")) + [name]
  {
    NoCommaNoMatch(name);
    SplitOfNoMatch(name, ", ", "");
    assert "" + name == name;
    if props != "" {
      SplitAppend(props, name, ", ", "");
    }
  }

  /** Appending a well-formed name lists it and keeps every other listed name. */
  lemma AppendNameListed(u: User, name: string, m: string)
    requires WellFormedItem(name)
    ensures var v := WithColumn(u, PropertiesColumn, AppendName(Column(u, PropertiesColumn), name));
            Listed(v, m) <==> Listed(u, m) || m == name
  {
    AppendNameSplits(Column(u, PropertiesColumn), name);
  }

  /** `xs.filter(p => p !== name)` */
  function Without(xs: seq<string>, name: string): (r: seq<string>)
    ensures |r| <= |xs|
    ensures forall x :: x in r <==> x in xs && x != name
  {
    if |xs| == 0 then []
    else (if xs[0] == name then [] else [xs[0]]) + Without(xs[1..], name)
  }

  lemma {:induction false} WithoutAbsent(xs: seq<string>, name: string)
    requires name !in xs
    ensures Without(xs, name) == xs
  {
    if |xs| > 0 {
      WithoutAbsent(xs[1..], name);
      assert xs == [xs[0]] + xs[1..];
    }
  }

  lemma {:induction false} WithoutAppend(xs: seq<string>, ys: seq<string>, name: string)
    ensures Without(xs + ys, name) == Without(xs, name) + Without(ys, name)
  {
    if |xs| > 0 {
      WithoutAppend(xs[1..], ys, name);
      assert (xs + ys)[1..] == xs[1..] + ys;
    } else {
      assert xs + ys == ys;
    }
  }

  /** The Properties column with every exact copy of `name` dropped. */
  function Unlisted(props: string, name: string): string
  {
    Join(Without(Split(props, ", "), name), ", ")
  }

  /** Reading a joined list of segments back gives the segments, or one empty one. */
  lemma SplitOfJoinedSegments(xs: seq<string>)
    requires forall x | x in xs :: NoMatch(x, ", ")
    ensures Split(Join(xs, ", "), ", ") == (if xs == [] then [""] else xs)
  {
    if xs != [] {
      SplitJoin(xs, ", ");
    }
  }

  /** Dropping a name from the column unlists that name and keeps every other. */
  lemma UnlistedListed(u: User, name: string, m: string)
    ensures var v := WithColumn(u, PropertiesColumn, Unlisted(Column(u, PropertiesColumn), name));
            Listed(v, m) <==> Listed(u, m) && m != name
  {
    var segs := Split(Column(u, PropertiesColumn), ", ");
    SplitSegments(Column(u, PropertiesColumn), ", ");
    SplitOfJoinedSegments(Without(segs, name));
  }

  /** Appending a name that was not listed and then dropping it restores the column. */
  lemma AppendThenUnlist(props: string, name: string)
    requires WellFormedItem(name) && name !in Split(props, ", ")
    ensures Unlisted(AppendName(props, name), name) == props
  {
    AppendNameSplits(props, name);
    if props == "" {
      assert Without([name], name) == [];
    } else {
      WithoutAppend(Split(props, ", "), [name], name);
      WithoutAbsent(Split(props, ", "), name);
      assert Without([name], name) == [];
      assert Split(props, ", ") + [] == Split(props, ", ");
      JoinSplit(props, ", ");
    }
  }

  /** The two readings of a Properties column, on "," with trimming and on ", ", list the same names. */
  ghost predicate Tidy(u: User)
  {
    forall m :: m in ParseList(Column(u, PropertiesColumn)) <==> Listed(u, m)
  }

  /** A column written as a ", "-join of well-formed names is tidy. */
  lemma SerializedIsTidy(u: User, xs: seq<string>)
    requires forall i | 0 <= i < |xs| :: WellFormedItem(xs[i])
    requires Column(u, PropertiesColumn) == SerializeList(xs)
    ensures Tidy(u)
  {
    ParseSerialize(xs);
    forall x | x in xs
      ensures NoMatch(x, ", ")
    {
      NoCommaNoMatch(x);
    }
    SplitOfJoinedSegments(xs);
  }

  /** `Properties ? Properties.split(', ').filter(Boolean) : []`, with the name added if absent. */
  function GivenList(props: string, name: string): (r: seq<string>)
    ensures name in r
  {
    var owned := if props != "" then DropEmpty(Split(props, ", ")) else [];
    if name in owned then owned else owned + [name]
  }

  /** The user's Properties column after the property `name` is given to them. */
  function GivenColumn(props: string, name: string): string
  {
    Join(GivenList(props, name), ", ")
  }

  lemma DropEmptyKeeps(xs: seq<string>, x: string)
    requires x in xs && x != ""
    ensures x in DropEmpty(xs)
  {
    var i :| 0 <= i < |xs| && xs[i] == x;
    DropEmptyAt(xs, i);
  }

  lemma {:induction false} DropEmptyAt(xs: seq<string>, i: nat)
    requires i < |xs| && xs[i] != ""
    ensures xs[i] in DropEmpty(xs)
  {
    if i > 0 {
      DropEmptyAt(xs[1..], i - 1);
    }
  }

  /** The names the given list holds: the listed ones and the given one. */
  lemma GivenListListed(props: string, name: string, m: string)
    requires WellFormedItem(name)
    ensures forall x | x in GivenList(props, name) :: NoMatch(x, ", ") && x != ""
    ensures (m != "" && m in Split(GivenColumn(props, name), ", ")) <==>
              (m != "" && m in Split(props, ", ")) || m == name
  {
    var owned := if props != "" then DropEmpty(Split(props, ", ")) else [];
    SplitSegments(props, ", ");
    DropEmptyFacts(Split(props, ", "));
    NoCommaNoMatch(name);
    SplitJoin(GivenList(props, name), ", ");
    if props != "" && m != "" && m in Split(props, ", ") {
      DropEmptyKeeps(Split(props, ", "), m);
    }
  }

  /** Giving the same property twice leaves the list as giving it once. */
  lemma GiveIdempotent(props: string, name: string)
    requires WellFormedItem(name)
    ensures GivenColumn(GivenColumn(props, name), name) == GivenColumn(props, name)
  {
    var once := GivenList(props, name);
    GivenListListed(props, name, name);
    SplitJoin(once, ", ");
    JoinNonEmpty(once, ", ");
    DropEmptyFacts(once);
  }

  // ------------------------------------------------- the invariant kept

  /**
   * Claiming a property that is unowned, or already the user's, for a user
   * who gains its name in their list, while no one else's list changes,
   * keeps the store consistent.
   */
  lemma ClaimKeepsConsistent(s: Store, k: nat, uid: string, v: User, owner: string)
    requires Consistent(s) && UniqueNames(s.properties)
    requires k < |s.properties| && uid in s.users
    requires s.properties[k].userId.None? || s.properties[k].userId == Some(uid)
    requires forall m :: Listed(v, m) <==> Listed(s.users[uid], m) || m == s.properties[k].name
    requires s.properties[k].name != ""
    ensures Consistent(Store(s.users[uid := v], s.properties[k := Claimed(s.properties[k], uid, owner)]))
  {
    var t := Store(s.users[uid := v], s.properties[k := Claimed(s.properties[k], uid, owner)]);
    forall i, u2 | 0 <= i < |t.properties| && u2 in t.users
      ensures Listed(t.users[u2], t.properties[i].name) <==> t.properties[i].userId == Some(u2)
    {
      if i != k {
        assert s.properties[i].name != s.properties[k].name by {
          if i < k { } else { }
        }
      }
    }
  }

  /**
   * Releasing a property its owner drops from their list, while no one
   * else's list changes, keeps the store consistent.
   */
  lemma ReleaseKeepsConsistent(s: Store, k: nat, uid: string, v: User)
    requires Consistent(s) && UniqueNames(s.properties)
    requires k < |s.properties| && uid in s.users && s.properties[k].userId == Some(uid)
    requires forall m :: Listed(v, m) <==> Listed(s.users[uid], m) && m != s.properties[k].name
    ensures Consistent(Store(s.users[uid := v], s.properties[k := Released(s.properties[k])]))
  {
    var t := Store(s.users[uid := v], s.properties[k := Released(s.properties[k])]);
    forall i, u2 | 0 <= i < |t.properties| && u2 in t.users
      ensures Listed(t.users[u2], t.properties[i].name) <==> t.properties[i].userId == Some(u2)
    {
      if i != k {
        assert s.properties[i].name != s.properties[k].name by {
          if i < k { } else { }
        }
      }
    }
  }
}
