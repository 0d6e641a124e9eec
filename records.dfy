// The records the economy keeps: a user row, a property row, and the
// outcome every handler reports. The datastore is a map from user id to
// user and a sequence of properties.
module Records {

  datatype Option<T> = None | Some(value: T)

  /** Why a handler declined; a declined handler leaves the state as it was. */
  datatype Refusal =
    | PermissionDenied
    | MissingArgument
    | UserNotFound
    | InvalidField
    | InvalidColumn
    | InvalidQuantity
    | InvalidAction
    | NegativeBalance
    | NonPositiveAmount
    | InsufficientFunds
    | InsufficientFines
    | NoWarrant
    | NothingToTrade
    | NoResults
    | ItemNotFound
    | ItemNotOwned
    | PropertyNotAvailable
    | PropertyNotOwned
    | PropertyNotFound
    | AlreadyOwned
    | AlreadyOwnsType
    | NotOwner
    | DuplicateName

  datatype Outcome<T> = Ok(value: T) | Refused(reason: Refusal)

  /** A handler's effect: the datastore afterwards and what it reported. */
  datatype Reply<S, T> = Reply(state: S, outcome: Outcome<T>)

  /**
   * A user row. Numeric columns are None when null, missing or not a
   * number. Text columns (inventory lists, Properties, License, Other,
   * Guns) live in `columns`; a column that is null is absent from the map.
   * `flags` holds the per-type ownership columns (Outlaw, Ranch, ...,
   * Homestead).
   */
  datatype User = User(
    cash: Option<int>,
    bank: Option<int>,
    stash: Option<int>,
    fines: Option<int>,
    coupons: Option<int>,
    warrant: bool,
    rate: int,
    tax: string,
    columns: map<string, string>,
    flags: map<string, bool>,
    homesteadCount: Option<int>)

  type Users = map<string, User>

  /** A property row: UserID and Owner are None while the property is unowned. */
  datatype Property = Property(
    key: string,
    name: string,
    price: int,
    details: string,
    kind: string,
    location: string,
    userId: Option<string>,
    owner: Option<string>)

  /** The users table and the property list together. */
  datatype Store = Store(users: Users, properties: seq<Property>)

  /** `Number(v) || 0`: an absent or non-numeric value reads as 0. */
  function Amount(v: Option<int>): int
  {
    match v
    case None => 0
    case Some(n) => n
  }

  /** A text column read as a string; null reads as "" (`?? ''`, `!raw`). */
  function Column(u: User, c: string): string
  {
    if c in u.columns then u.columns[c] else ""
  }

  function WithColumn(u: User, c: string, v: string): User
  {
    u.(columns := u.columns[c := v])
  }

  /** Writing null to a text column. */
  function WithoutColumn(u: User, c: string): User
  {
    u.(columns := u.columns - {c})
  }

  /** A per-type flag; a missing flag reads as false. */
  predicate Flag(u: User, t: string)
  {
    t in u.flags && u.flags[t]
  }

  const PropertiesColumn := "Properties"
}
