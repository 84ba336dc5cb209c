/**
 Laws relating the service operations to one another: what a later lookup
 sees after each successful write, which guard wins when several apply, and
 the round trips between insertion and removal.
 */
module ServiceLaws {
  import opened Domain
  import opened ClientService

  /** After a successful save the lookup returns exactly the saved client,
      so in particular the same name and e-mail. */
  lemma SaveThenFind(s: Store, c: Client)
    requires c.id.Some?
    requires Save(s, c).result.Ok?
    ensures FindById(Save(s, c).store, c.id.value) == Ok(c)
    ensures FindById(Save(s, c).store, c.id.value).value.name == c.name
    ensures FindById(Save(s, c).store, c.id.value).value.email == c.email
  {
  }

  /** A lookup of any other id is unaffected by a save. */
  lemma SaveKeepsOthers(s: Store, c: Client, other: string)
    requires c.id.Some? || IsEmpty(c.name)
    requires c.id.Some? ==> other != c.id.value
    ensures FindById(Save(s, c).store, other) == FindById(s, other)
  {
  }

  /** The name guard comes before the existence guard: an empty name on an id
      that is already stored is a bad resource, not a conflict. */
  lemma SaveNameGuardFirst(s: Store, c: Client)
    requires c.id.Some? && c.id.value in s
    requires IsEmpty(c.name)
    ensures Save(s, c) == Outcome(s, Err(SaveRejected))
  {
  }

  /** Emptiness does not trim: a name made only of blanks passes the service's
      name guard, so the map store accepts the row. */
  lemma BlankNameIsNotEmpty(s: Store, id: string, blanks: string, email: Option<string>)
    requires |blanks| > 0 && forall i :: 0 <= i < |blanks| ==> blanks[i] == ' '
    requires id !in s
    ensures Save(s, Client(Some(id), Some(blanks), email)).result.Ok?
  {
  }

  /** Saving the same client twice: the second attempt is a conflict and
      leaves the store as the first one left it. */
  lemma SaveTwiceConflicts(s: Store, c: Client)
    requires c.id.Some?
    requires Save(s, c).result.Ok?
    ensures var t := Save(s, c).store;
            Save(t, c).result.Err? && Save(t, c).result.error.AlreadyExists? && Save(t, c).store == t
  {
  }

  /** After a successful update the lookup returns the new client wholesale. */
  lemma UpdateThenFind(s: Store, c: Client)
    requires c.id.Some?
    requires Update(s, c).result.Ok?
    ensures FindById(Update(s, c).store, c.id.value) == Ok(c)
  {
  }

  /** Updating twice with the same client is the same as updating once. */
  lemma UpdateIdempotent(s: Store, c: Client)
    requires c.id.Some?
    requires Update(s, c).result.Ok?
    ensures Update(Update(s, c).store, c) == Update(s, c)
  {
  }

  /** On a missing id the lookup fails before any field is examined, so even
      two empty fields give `NotFound`, not a bad resource. */
  lemma UpdateNameEmailLookupFirst(s: Store, id: string)
    requires WellFormed(s)
    requires id !in s
    ensures UpdateNameEmail(s, id, None, None) == Outcome(s, Err(NotFound("Cannot find Client with id: " + id)))
  {
  }

  /** Supplying only an e-mail keeps the stored name and id and overwrites the e-mail. */
  lemma UpdateEmailOnly(s: Store, id: string, email: string)
    requires WellFormed(s)
    requires id in s && |email| > 0
    ensures UpdateNameEmail(s, id, None, Some(email)).result.Ok?
    ensures FindById(UpdateNameEmail(s, id, None, Some(email)).store, id)
              == Ok(s[id].(email := Some(email)))
  {
  }

  /** The row a partial update writes: each supplied non-empty field over the stored row. */
  function Merged(s: Store, id: string, name: Option<string>, email: Option<string>): Client
    requires id in s
  {
    Client(Some(id),
           if IsEmpty(name) then s[id].name else name,
           if IsEmpty(email) then s[id].email else email)
  }

  /** On a stored id with at least one field supplied, the partial update has
      the same outcome as a full update with the merged row exactly when the
      merged name is non-empty. The partial update never re-checks the stored
      name, so over a row whose name is empty it succeeds where the full
      update is a bad resource. */
  lemma UpdateNameEmailIsMergedUpdate(s: Store, id: string, name: Option<string>, email: Option<string>)
    requires WellFormed(s)
    requires id in s && !(IsEmpty(name) && IsEmpty(email))
    ensures (UpdateNameEmail(s, id, name, email) == Update(s, Merged(s, id, name, email)))
              <==> !IsEmpty(Merged(s, id, name, email).name)
  {
  }

  /** In a store where every name is present, every successful partial update
      is the full update of its merged row. */
  lemma UpdateNameEmailIsMergedUpdateWhenNamesPresent(s: Store, id: string, name: Option<string>, email: Option<string>)
    requires WellFormed(s) && NamesPresent(s)
    requires UpdateNameEmail(s, id, name, email).result.Ok?
    ensures UpdateNameEmail(s, id, name, email) == Update(s, Merged(s, id, name, email))
  {
  }

  /** After a successful delete the lookup fails with `NotFound`. */
  lemma DeleteThenFind(s: Store, id: string)
    requires DeleteById(s, id).result.Ok?
    ensures FindById(DeleteById(s, id).store, id) == Err(NotFound("Cannot find Client with id: " + id))
  {
  }

  /** Deleting what was just saved gives back the original store. */
  lemma SaveThenDelete(s: Store, c: Client)
    requires c.id.Some?
    requires Save(s, c).result.Ok?
    ensures DeleteById(Save(s, c).store, c.id.value) == Outcome(s, Ok(()))
  {
  }

  /** Saving back a row that was just deleted gives back the original store,
      provided the row itself would pass the name guard. */
  lemma DeleteThenSave(s: Store, id: string)
    requires WellFormed(s)
    requires id in s && !IsEmpty(s[id].name)
    ensures Save(DeleteById(s, id).store, s[id]) == Outcome(s, Ok(s[id]))
  {
  }

  /** Every write changes the count by exactly what it does to the key set:
      a successful save adds one, a successful delete removes one, and
      everything else keeps it. */
  lemma CountAfterWrites(s: Store, c: Client, id: string, name: Option<string>, email: Option<string>)
    requires WellFormed(s)
    requires c.id.Some? || IsEmpty(c.name)
    ensures Count(Save(s, c).store) == Count(s) + (if Save(s, c).result.Ok? then 1 else 0)
    ensures Count(Update(s, c).store) == Count(s)
    ensures Count(UpdateNameEmail(s, id, name, email).store) == Count(s)
    ensures Count(DeleteById(s, id).store) == Count(s) - (if DeleteById(s, id).result.Ok? then 1 else 0)
  {
  }
}
