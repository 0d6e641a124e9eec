// services/propertyService.js: the server-side give, remove and delete of
// a property, looked up by its exact name.
module PropertyService {
  import opened Text
  import opened Records
  import opened InventoryMutation
  import opened Ownership

  /** The first property named exactly `name` with the given recorded owner (None: unowned). */
  function FindRow(props: seq<Property>, name: string, owner: Option<string>): (r: int)
    ensures -1 <= r < |props|
    ensures r >= 0 ==> props[r].name == name && props[r].userId == owner
    ensures r == -1 <==> forall j | 0 <= j < |props| :: !(props[j].name == name && props[j].userId == owner)
  {
    if |props| == 0 then -1
    else if props[0].name == name && props[0].userId == owner then 0
    else
      var k := FindRow(props[1..], name, owner);
      if k == -1 then
        assert forall j | 1 <= j < |props| :: props[j] == props[1..][j - 1];
        -1
      else k + 1
  }

  /** `giveProperty`: only an unowned property can be given. */
  method GiveProperty(s: Store, userId: string, propertyName: string, adminTag: string) returns (r: Reply<Store, Property>)
    ensures r.outcome.Refused? ==> r.state == s
    ensures userId == "" || propertyName == "" ==> r.outcome == Refused(MissingArgument)
    ensures userId != "" && propertyName != "" && userId !in s.users ==> r.outcome == Refused(UserNotFound)
    ensures r.outcome.Ok? <==>
              userId != "" && propertyName != "" && userId in s.users && FindRow(s.properties, propertyName, None) >= 0
    ensures r.outcome.Ok? ==>
              var k := FindRow(s.properties, propertyName, None);
              var u := s.users[userId];
              r.outcome.value == Claimed(s.properties[k], userId, adminTag) &&
              r.state == Store(s.users[userId := WithColumn(u, PropertiesColumn, GivenColumn(Column(u, PropertiesColumn), propertyName))],
                               s.properties[k := Claimed(s.properties[k], userId, adminTag)])
  {
    if userId == "" || propertyName == "" {
      return Reply(s, Refused(MissingArgument));
    }
    if userId !in s.users {
      return Reply(s, Refused(UserNotFound));
    }
    var user := s.users[userId];
    var k := FindRow(s.properties, propertyName, None);
    if k == -1 {
      return Reply(s, Refused(PropertyNotAvailable));
    }
    var property := s.properties[k];
    var owned := if Column(user, PropertiesColumn) != "" then DropEmpty(Split(Column(user, PropertiesColumn), ", ")) else [];
    if property.name !in owned {
      owned := owned + [property.name];
    }
    user := WithColumn(user, PropertiesColumn, Join(owned, ", "));
    property := property.(userId := Some(userId), owner := Some(adminTag));
    r := Reply(Store(s.users[userId := user], s.properties[k := property]), Ok(property));
  }

  /** The Properties column after `removeProperty`: every exact copy of the name dropped. */
  function RemovedColumn(props: string, name: string): string
  {
    if props != "" then Join(Without(Split(props, ", "), name), ", ") else ""
  }

  /** `removeProperty`: only the recorded owner can have the property removed. */
  method RemoveProperty(s: Store, userId: string, propertyName: string) returns (r: Reply<Store, Property>)
    ensures r.outcome.Refused? ==> r.state == s
    ensures userId == "" || propertyName == "" ==> r.outcome == Refused(MissingArgument)
    ensures userId != "" && propertyName != "" && userId !in s.users ==> r.outcome == Refused(UserNotFound)
    ensures r.outcome.Ok? <==>
              userId != "" && propertyName != "" && userId in s.users && FindRow(s.properties, propertyName, Some(userId)) >= 0
    ensures r.outcome.Ok? ==>
              var k := FindRow(s.properties, propertyName, Some(userId));
              var u := s.users[userId];
              r.outcome.value == Released(s.properties[k]) &&
              r.state == Store(s.users[userId := WithColumn(u, PropertiesColumn, RemovedColumn(Column(u, PropertiesColumn), propertyName))],
                               s.properties[k := Released(s.properties[k])])
  {
    if userId == "" || propertyName == "" {
      return Reply(s, Refused(MissingArgument));
    }
    if userId !in s.users {
      return Reply(s, Refused(UserNotFound));
    }
    var user := s.users[userId];
    var k := FindRow(s.properties, propertyName, Some(userId));
    if k == -1 {
      return Reply(s, Refused(PropertyNotOwned));
    }
    var property := s.properties[k];
    var owned := if Column(user, PropertiesColumn) != "" then Without(Split(Column(user, PropertiesColumn), ", "), property.name) else [];
    user := WithColumn(user, PropertiesColumn, Join(owned, ", "));
    property := property.(userId := None, owner := None);
    r := Reply(Store(s.users[userId := user], s.properties[k := property]), Ok(property));
  }

  /** `.delete().eq('Name', propertyName)`: every row with the name goes, whoever owns it. */
  function WithoutRows(props: seq<Property>, name: string): (r: seq<Property>)
    ensures |r| <= |props|
    ensures forall p :: p in r <==> p in props && p.name != name
  {
    if |props| == 0 then []
    else (if props[0].name == name then [] else [props[0]]) + WithoutRows(props[1..], name)
  }

  /** `deleteProperty`: refused unless an unowned row has the name. */
  method DeleteProperty(props: seq<Property>, propertyName: string) returns (r: Reply<seq<Property>, string>)
    ensures r.outcome.Refused? ==> r.state == props
    ensures propertyName == "" ==> r.outcome == Refused(MissingArgument)
    ensures r.outcome.Ok? <==> propertyName != "" && FindRow(props, propertyName, None) >= 0
    ensures r.outcome.Ok? ==> r.state == WithoutRows(props, propertyName)
  {
    if propertyName == "" {
      return Reply(props, Refused(MissingArgument));
    }
    var k := FindRow(props, propertyName, None);
    if k == -1 {
      return Reply(props, Refused(PropertyNotFound));
    }
    r := Reply(WithoutRows(props, propertyName), Ok(propertyName));
  }

  // ------------------------------------------------------------ lemmas

  /** The names a removal leaves listed: all the earlier ones but the name removed. */
  lemma RemovedListed(u: User, name: string, m: string)
    requires name != ""
    ensures Listed(WithColumn(u, PropertiesColumn, RemovedColumn(Column(u, PropertiesColumn), name)), m) <==>
              Listed(u, m) && m != name
  {
    if Column(u, PropertiesColumn) != "" {
      UnlistedListed(u, name, m);
    }
  }

  /** A successful give keeps each user's list in step with the property list. */
  lemma GiveKeepsConsistent(s: Store, userId: string, propertyName: string, adminTag: string)
    requires Consistent(s) && UniqueNames(s.properties) && NamesWellFormed(s.properties)
    requires userId in s.users && FindRow(s.properties, propertyName, None) >= 0
    ensures var k := FindRow(s.properties, propertyName, None);
            var u := s.users[userId];
            Consistent(Store(s.users[userId := WithColumn(u, PropertiesColumn, GivenColumn(Column(u, PropertiesColumn), propertyName))],
                             s.properties[k := Claimed(s.properties[k], userId, adminTag)]))
  {
    var k := FindRow(s.properties, propertyName, None);
    var u := s.users[userId];
    var v := WithColumn(u, PropertiesColumn, GivenColumn(Column(u, PropertiesColumn), propertyName));
    forall m
      ensures Listed(v, m) <==> Listed(u, m) || m == propertyName
    {
      GivenListListed(Column(u, PropertiesColumn), propertyName, m);
    }
    ClaimKeepsConsistent(s, k, userId, v, adminTag);
  }

  /** A successful remove keeps each user's list in step with the property list. */
  lemma RemoveKeepsConsistent(s: Store, userId: string, propertyName: string)
    requires Consistent(s) && UniqueNames(s.properties)
    requires propertyName != "" && userId in s.users && FindRow(s.properties, propertyName, Some(userId)) >= 0
    ensures var k := FindRow(s.properties, propertyName, Some(userId));
            var u := s.users[userId];
            Consistent(Store(s.users[userId := WithColumn(u, PropertiesColumn, RemovedColumn(Column(u, PropertiesColumn), propertyName))],
                             s.properties[k := Released(s.properties[k])]))
  {
    var k := FindRow(s.properties, propertyName, Some(userId));
    var u := s.users[userId];
    var v := WithColumn(u, PropertiesColumn, RemovedColumn(Column(u, PropertiesColumn), propertyName));
    forall m
      ensures Listed(v, m) <==> Listed(u, m) && m != propertyName
    {
      RemovedListed(u, propertyName, m);
    }
    ReleaseKeepsConsistent(s, k, userId, v);
  }

  /** Giving a property and then removing it lists the same names as before. */
  lemma GiveThenRemove(u: User, name: string, m: string)
    requires WellFormedItem(name)
    ensures var given := WithColumn(u, PropertiesColumn, GivenColumn(Column(u, PropertiesColumn), name));
            var removed := WithColumn(given, PropertiesColumn, RemovedColumn(Column(given, PropertiesColumn), name));
            Listed(removed, m) <==> Listed(u, m) && m != name
  {
    var given := WithColumn(u, PropertiesColumn, GivenColumn(Column(u, PropertiesColumn), name));
    GivenListListed(Column(u, PropertiesColumn), name, m);
    RemovedListed(given, name, m);
  }

  /**
   * Deleting rows keeps the store consistent, and since an unowned row
   * has the name, no user lists it: in a consistent store no row with the
   * name is owned, so the delete takes no one's property.
   */
  lemma DeleteKeepsConsistent(s: Store, propertyName: string)
    requires Consistent(s)
    requires FindRow(s.properties, propertyName, None) >= 0
    ensures Consistent(Store(s.users, WithoutRows(s.properties, propertyName)))
    ensures forall uid | uid in s.users :: !Listed(s.users[uid], propertyName)
    ensures forall i | 0 <= i < |s.properties| && s.properties[i].name == propertyName ::
              s.properties[i].userId.None? || s.properties[i].userId.value !in s.users
  {
    var t := Store(s.users, WithoutRows(s.properties, propertyName));
    forall i, uid | 0 <= i < |t.properties| && uid in t.users
      ensures Listed(t.users[uid], t.properties[i].name) <==> t.properties[i].userId == Some(uid)
    {
      assert t.properties[i] in s.properties;
    }
    var k := FindRow(s.properties, propertyName, None);
    forall uid | uid in s.users
      ensures !Listed(s.users[uid], propertyName)
    {
      assert s.properties[k].userId != Some(uid);
    }
  }
}
