/**
 The Client entity and the keyed store that holds it.

 Every field of the entity is a Java `String` and may be null, so each is an
 `Option<string>`. The store is the table behind the repository: a map from
 primary key to the row stored under it.
 */
module Domain {

  datatype Option<+T> = None | Some(value: T)

  /** A client record: primary key, display name and contact e-mail. */
  datatype Client = Client(id: Option<string>, name: Option<string>, email: Option<string>)

  /** The persisted clients, keyed by id. */
  type Store = map<string, Client>

  /** Spring's `ObjectUtils.isEmpty` on a String: null or of length zero.
      Whitespace is NOT trimmed, so "  " is not empty. */
  predicate IsEmpty(s: Option<string>)
  {
    s.None? || |s.value| == 0
  }

  /** Every row carries its own primary key as its id, as a JPA entity does. */
  ghost predicate WellFormed(s: Store)
  {
    forall k :: k in s ==> s[k].id == Some(k)
  }

  /** No stored row has an empty name: every write path checks the name, or
      keeps the stored one, before it writes. */
  ghost predicate NamesPresent(s: Store)
  {
    forall k :: k in s ==> !IsEmpty(s[k].name)
  }

  /** `t` agrees with `s` on every key other than `key`: same presence, same row. */
  ghost predicate AgreeOutside(s: Store, t: Store, key: string)
  {
    forall k :: k != key ==> (k in s <==> k in t) && (k in s ==> s[k] == t[k])
  }
}
