// The admin property commands: functions/Admin-Create-Property.js adds an
// unowned property, functions/Admin-Give-Property.js assigns one to a
// user, functions/Admin-Take-Property.js takes one away.
module PropertyAdmin {
  import opened Text
  import opened Records
  import opened InventoryMutation
  import opened Ownership
  import PropertyStore

  // ------------------------------------------------------------ create

  /** Some named property has this name, ignoring case (`p.Name && ...`). */
  predicate NameTaken(props: seq<Property>, name: string)
  {
    exists i | 0 <= i < |props| :: props[i].name != "" && Lower(props[i].name) == Lower(name)
  }

  /** No two named properties share a name, ignoring case. */
  predicate UniqueIgnoringCase(props: seq<Property>)
  {
    forall i, j | 0 <= i < j < |props| && props[i].name != "" && props[j].name != "" ::
      Lower(props[i].name) != Lower(props[j].name)
  }

  /** The row the command builds: trimmed text, a lowercased type, and no owner. */
  function NewProperty(key: string, name: string, price: int, details: string, kind: string, location: string): (r: Property)
    ensures r.userId.None? && r.owner.None?
    ensures IsTrimmed(r.name) && IsTrimmed(r.details) && IsTrimmed(r.location)
    ensures Lower(r.kind) == r.kind
  {
    LowerIdempotent(Trim(kind));
    Property(key, Trim(name), price, Trim(details), Lower(Trim(kind)), Trim(location), None, None)
  }

  /** `propertyList.push(newProperty)` unless the name is taken; `key` stands for `randomUUID()`. */
  method CreateProperty(isAdmin: bool, props: seq<Property>, name: string, price: int, details: string,
                        kind: string, location: string, key: string) returns (r: Reply<seq<Property>, Property>)
    ensures !isAdmin ==> r == Reply(props, Refused(PermissionDenied))
    ensures r.outcome.Refused? ==> r.state == props
    ensures r.outcome.Ok? <==> isAdmin && !NameTaken(props, Trim(name))
    ensures r.outcome.Ok? ==>
              r.outcome.value == NewProperty(key, name, price, details, kind, location) &&
              r.state == props + [r.outcome.value]
  {
    if !isAdmin {
      return Reply(props, Refused(PermissionDenied));
    }
    var trimmedName := Trim(name);
    var i := 0;
    while i < |props|
      invariant 0 <= i <= |props|
      invariant forall j | 0 <= j < i :: !(props[j].name != "" && Lower(props[j].name) == Lower(trimmedName))
    {
      if props[i].name != "" && Lower(props[i].name) == Lower(trimmedName) {
        return Reply(props, Refused(DuplicateName));
      }
      i := i + 1;
    }
    var created := NewProperty(key, name, price, details, kind, location);
    var propertyList := props;
    propertyList := propertyList + [created];
    r := Reply(propertyList, Ok(created));
  }

  /** A created property keeps the names unique, ignoring case. */
  lemma CreateKeepsUnique(props: seq<Property>, p: Property)
    requires UniqueIgnoringCase(props) && !NameTaken(props, p.name)
    ensures UniqueIgnoringCase(props + [p])
  {
    var t := props + [p];
    forall i, j | 0 <= i < j < |t| && t[i].name != "" && t[j].name != ""
      ensures Lower(t[i].name) != Lower(t[j].name)
    {
      if j == |props| {
        assert t[i] == props[i];
      } else {
        assert t[i] == props[i] && t[j] == props[j];
      }
    }
  }

  /**
   * Appending an unowned property keeps every user's Properties column in
   * step with the list, provided no user already lists the new name (a
   * stale entry left in a column would otherwise claim it).
   */
  lemma CreateKeepsConsistent(s: Store, p: Property)
    requires Consistent(s) && p.userId.None?
    requires forall uid | uid in s.users :: !Listed(s.users[uid], p.name)
    ensures Consistent(Store(s.users, s.properties + [p]))
  {
    var t := s.properties + [p];
    forall i, uid | 0 <= i < |t| && uid in s.users
      ensures Listed(s.users[uid], t[i].name) <==> t[i].userId == Some(uid)
    {
      if i < |s.properties| {
        assert t[i] == s.properties[i];
      }
    }
  }

  /** Names unique ignoring case are unique exactly, among the named ones. */
  lemma UniqueIgnoringCaseIsUnique(props: seq<Property>)
    requires UniqueIgnoringCase(props)
    requires forall i | 0 <= i < |props| :: props[i].name != ""
    ensures UniqueNames(props)
  {
  }

  /**
   * The type is stored lowercased, while the store's type columns are
   * capitalised: a created property never sets or needs a type flag.
   */
  lemma CreatedKindIsUnmapped(key: string, name: string, price: int, details: string, kind: string, location: string)
    ensures NewProperty(key, name, price, details, kind, location).kind !in PropertyStore.TypeColumns
  {
    var k := NewProperty(key, name, price, details, kind, location).kind;
    if |k| > 0 {
      assert k[0] == LowerChar(Trim(kind)[0]);
      assert !('A' <= k[0] <= 'Z');
    }
    assert forall c | c in PropertyStore.TypeColumns :: |c| > 0 && 'A' <= c[0] <= 'Z';
  }

  // -------------------------------------------------------------- give

  /** The first property with a non-empty name whose lowercased name is `input`. */
  function FindByLowerName(props: seq<Property>, input: string): (r: int)
    ensures -1 <= r < |props|
    ensures r >= 0 ==> props[r].name != "" && Lower(props[r].name) == input
    ensures r >= 0 ==> forall j | 0 <= j < r :: !(props[j].name != "" && Lower(props[j].name) == input)
    ensures r == -1 ==> forall j | 0 <= j < |props| :: !(props[j].name != "" && Lower(props[j].name) == input)
  {
    if |props| == 0 then -1
    else if props[0].name != "" && Lower(props[0].name) == input then 0
    else
      var k := FindByLowerName(props[1..], input);
      if k == -1 then -1
      else
        assert forall j | 1 <= j < k + 1 :: props[j] == props[1..][j - 1];
        k + 1
  }

  /**
   * Gives the property named, ignoring case, by `raw` to `target`. As
   * written there is no check that the property is unowned.
   */
  method AdminGiveProperty(isAdmin: bool, s: Store, target: string, raw: string, adminTag: string)
    returns (r: Reply<Store, Property>)
    ensures r.outcome.Refused? ==> r.state == s
    ensures !isAdmin ==> r.outcome == Refused(PermissionDenied)
    ensures isAdmin && target !in s.users ==> r.outcome == Refused(UserNotFound)
    ensures r.outcome.Ok? <==> isAdmin && target in s.users && FindByLowerName(s.properties, Lower(Trim(raw))) >= 0
    ensures r.outcome.Ok? ==>
              var k := FindByLowerName(s.properties, Lower(Trim(raw)));
              var u := s.users[target];
              r.outcome.value == Claimed(s.properties[k], target, adminTag) &&
              r.state == Store(s.users[target := WithColumn(u, PropertiesColumn, GivenColumn(Column(u, PropertiesColumn), s.properties[k].name))],
                               s.properties[k := Claimed(s.properties[k], target, adminTag)])
  {
    if !isAdmin {
      return Reply(s, Refused(PermissionDenied));
    }
    var propertyInput := Lower(Trim(raw));
    if target !in s.users {
      return Reply(s, Refused(UserNotFound));
    }
    var userData := s.users[target];
    var k := FindByLowerName(s.properties, propertyInput);
    if k == -1 {
      return Reply(s, Refused(PropertyNotFound));
    }
    var property := s.properties[k];
    var ownedProperties := if Column(userData, PropertiesColumn) != "" then DropEmpty(Split(Column(userData, PropertiesColumn), ", ")) else [];
    if property.name !in ownedProperties {
      ownedProperties := ownedProperties + [property.name];
    }
    userData := WithColumn(userData, PropertiesColumn, Join(ownedProperties, ", "));
    property := property.(userId := Some(target));
    property := property.(owner := Some(adminTag));
    r := Reply(Store(s.users[target := userData], s.properties[k := property]), Ok(property));
  }

  /** Giving an unowned property, or one the target already owns, keeps the store consistent. */
  lemma GiveKeepsConsistent(s: Store, target: string, k: nat, adminTag: string)
    requires Consistent(s) && UniqueNames(s.properties) && NamesWellFormed(s.properties)
    requires k < |s.properties| && target in s.users
    requires s.properties[k].userId.None? || s.properties[k].userId == Some(target)
    ensures var u := s.users[target];
            Consistent(Store(s.users[target := WithColumn(u, PropertiesColumn, GivenColumn(Column(u, PropertiesColumn), s.properties[k].name))],
                             s.properties[k := Claimed(s.properties[k], target, adminTag)]))
  {
    var u := s.users[target];
    var p := s.properties[k];
    var v := WithColumn(u, PropertiesColumn, GivenColumn(Column(u, PropertiesColumn), p.name));
    forall m
      ensures Listed(v, m) <==> Listed(u, m) || m == p.name
    {
      GivenListListed(Column(u, PropertiesColumn), p.name, m);
    }
    ClaimKeepsConsistent(s, k, target, v, adminTag);
  }

  /**
   * With no unowned check, giving a property another user owns leaves it
   * on that user's list while the property records the new owner.
   */
  lemma GiveOwnedBreaksConsistent(s: Store, target: string, k: nat, adminTag: string)
    requires Consistent(s)
    requires k < |s.properties| && target in s.users
    requires s.properties[k].userId.Some? && s.properties[k].userId.value in s.users
    requires s.properties[k].userId.value != target
    ensures var u := s.users[target];
            !Consistent(Store(s.users[target := WithColumn(u, PropertiesColumn, GivenColumn(Column(u, PropertiesColumn), s.properties[k].name))],
                              s.properties[k := Claimed(s.properties[k], target, adminTag)]))
  {
    var u := s.users[target];
    var other := s.properties[k].userId.value;
    var t := Store(s.users[target := WithColumn(u, PropertiesColumn, GivenColumn(Column(u, PropertiesColumn), s.properties[k].name))],
                   s.properties[k := Claimed(s.properties[k], target, adminTag)]);
    assert Listed(s.users[other], s.properties[k].name);
    assert t.users[other] == s.users[other];
    assert t.properties[k].userId != Some(other);
  }

  // -------------------------------------------------------------- take

  /** `findIndex(p => p.toLowerCase() === name)` */
  function FindLower(xs: seq<string>, name: string): (r: int)
    ensures -1 <= r < |xs|
    ensures r >= 0 ==> Lower(xs[r]) == name && forall j | 0 <= j < r :: Lower(xs[j]) != name
    ensures r == -1 ==> forall j | 0 <= j < |xs| :: Lower(xs[j]) != name
  {
    if |xs| == 0 then -1
    else if Lower(xs[0]) == name then 0
    else
      var k := FindLower(xs[1..], name);
      if k == -1 then -1
      else
        assert forall j | 1 <= j < k + 1 :: xs[j] == xs[1..][j - 1];
        k + 1
  }

  /** `properties.find(p => (p.Name ?? '').toLowerCase() === name)` */
  function FindRow(props: seq<Property>, name: string): (r: int)
    ensures -1 <= r < |props|
    ensures r >= 0 ==> Lower(props[r].name) == name && forall j | 0 <= j < r :: Lower(props[j].name) != name
    ensures r == -1 ==> forall j | 0 <= j < |props| :: Lower(props[j].name) != name
  {
    if |props| == 0 then -1
    else if Lower(props[0].name) == name then 0
    else
      var k := FindRow(props[1..], name);
      if k == -1 then -1
      else
        assert forall j | 1 <= j < k + 1 :: props[j] == props[1..][j - 1];
        k + 1
  }

  /** The user after the entry at `i` of their parsed list is spliced out; an empty list is stored as null. */
  function TakenUser(u: User, i: nat): User
    requires i < |ParseList(Column(u, PropertiesColumn))|
  {
    var owned := ParseList(Column(u, PropertiesColumn));
    var rest := owned[..i] + owned[i + 1..];
    if |rest| == 0 then WithoutColumn(u, PropertiesColumn) else WithColumn(u, PropertiesColumn, SerializeList(rest))
  }

  /**
   * Takes the property named, ignoring case, by `raw` from `target`: the
   * first matching entry leaves their list and the first matching row is
   * released, whoever it recorded as owner.
   */
  method AdminTakeProperty(isAdmin: bool, s: Store, target: string, raw: string) returns (r: Reply<Store, Property>)
    ensures r.outcome.Refused? ==> r.state == s
    ensures !isAdmin ==> r.outcome == Refused(PermissionDenied)
    ensures isAdmin && target !in s.users ==> r.outcome == Refused(UserNotFound)
    ensures isAdmin && target in s.users && FindLower(ParseList(Column(s.users[target], PropertiesColumn)), Lower(Trim(raw))) == -1 ==>
              r.outcome == Refused(PropertyNotOwned)
    ensures r.outcome.Ok? <==>
              isAdmin && target in s.users &&
              FindLower(ParseList(Column(s.users[target], PropertiesColumn)), Lower(Trim(raw))) >= 0 &&
              FindRow(s.properties, Lower(Trim(raw))) >= 0
    ensures r.outcome.Ok? ==>
              var i := FindLower(ParseList(Column(s.users[target], PropertiesColumn)), Lower(Trim(raw)));
              var k := FindRow(s.properties, Lower(Trim(raw)));
              r.outcome.value == Released(s.properties[k]) &&
              r.state == Store(s.users[target := TakenUser(s.users[target], i)], s.properties[k := Released(s.properties[k])])
  {
    if !isAdmin {
      return Reply(s, Refused(PermissionDenied));
    }
    var propertyName := Lower(Trim(raw));
    if target !in s.users {
      return Reply(s, Refused(UserNotFound));
    }
    var user := s.users[target];
    var ownedProperties := ParseList(Column(user, PropertiesColumn));
    var ownedIndex := FindLower(ownedProperties, propertyName);
    if ownedIndex == -1 {
      return Reply(s, Refused(PropertyNotOwned));
    }
    var k := FindRow(s.properties, propertyName);
    if k == -1 {
      return Reply(s, Refused(PropertyNotFound));
    }
    ownedProperties := ownedProperties[..ownedIndex] + ownedProperties[ownedIndex + 1..];
    if |ownedProperties| > 0 {
      user := WithColumn(user, PropertiesColumn, SerializeList(ownedProperties));
    } else {
      user := WithoutColumn(user, PropertiesColumn);
    }
    var propertyRow := s.properties[k];
    propertyRow := propertyRow.(owner := None);
    propertyRow := propertyRow.(userId := None);
    r := Reply(Store(s.users[target := user], s.properties[k := propertyRow]), Ok(propertyRow));
  }

  /** Exactly one entry, the one at `i`, leaves the list; the rest keep their order. */
  lemma TakenUserFacts(u: User, i: nat)
    requires i < |ParseList(Column(u, PropertiesColumn))|
    ensures var owned := ParseList(Column(u, PropertiesColumn));
            var after := ParseList(Column(TakenUser(u, i), PropertiesColumn));
            after == owned[..i] + owned[i + 1..] &&
            multiset(after) + multiset{owned[i]} == multiset(owned) &&
            Tidy(TakenUser(u, i))
  {
    var owned := ParseList(Column(u, PropertiesColumn));
    var rest := owned[..i] + owned[i + 1..];
    SpliceOut(owned, i);
    ParseSerialize(rest);
    forall x | x in rest
      ensures NoMatch(x, ", ")
    {
      NoCommaNoMatch(x);
    }
    SplitOfJoinedSegments(rest);
  }

  /**
   * Taking a property from its recorded owner, when their tidy list holds
   * its exact name once, keeps the store consistent.
   */
  lemma TakeKeepsConsistent(s: Store, target: string, i: nat, k: nat)
    requires Consistent(s) && UniqueNames(s.properties)
    requires target in s.users && Tidy(s.users[target])
    requires i < |ParseList(Column(s.users[target], PropertiesColumn))| && k < |s.properties|
    requires s.properties[k].userId == Some(target)
    requires var owned := ParseList(Column(s.users[target], PropertiesColumn));
             owned[i] == s.properties[k].name && s.properties[k].name !in owned[..i] + owned[i + 1..]
    ensures Consistent(Store(s.users[target := TakenUser(s.users[target], i)], s.properties[k := Released(s.properties[k])]))
  {
    var u := s.users[target];
    var v := TakenUser(u, i);
    var owned := ParseList(Column(u, PropertiesColumn));
    TakenUserFacts(u, i);
    forall m
      ensures Listed(v, m) <==> Listed(u, m) && m != s.properties[k].name
    {
      assert owned == owned[..i] + [owned[i]] + owned[i + 1..];
    }
    ReleaseKeepsConsistent(s, k, target, v);
  }

  /**
   * The row is released whatever owner it recorded: taking a property
   * another user owns leaves it on that user's list while the row says
   * unowned.
   */
  lemma TakeOthersBreaksConsistent(s: Store, target: string, i: nat, k: nat)
    requires Consistent(s)
    requires target in s.users && i < |ParseList(Column(s.users[target], PropertiesColumn))| && k < |s.properties|
    requires s.properties[k].userId.Some? && s.properties[k].userId.value in s.users
    requires s.properties[k].userId.value != target
    ensures !Consistent(Store(s.users[target := TakenUser(s.users[target], i)], s.properties[k := Released(s.properties[k])]))
  {
    var other := s.properties[k].userId.value;
    var t := Store(s.users[target := TakenUser(s.users[target], i)], s.properties[k := Released(s.properties[k])]);
    assert Listed(s.users[other], s.properties[k].name);
    assert t.users[other] == s.users[other];
    assert t.properties[k].userId != Some(other);
  }
}
