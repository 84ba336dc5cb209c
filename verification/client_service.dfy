/**
 The client lifecycle service: existence and emptiness guards around the store.

 Each Java method becomes a pure function from the current store to an
 `Outcome`: the store afterwards together with either the returned value or the
 exception the method throws. Exceptions are the three domain kinds, each with
 the message text the service builds.
 */
module ClientService {
  import opened Domain

  datatype Error =
    | NotFound(message: string)
    | AlreadyExists(message: string)
    | BadResource(message: string, errorMessages: seq<string>)

  datatype Result<+T> = Ok(value: T) | Err(error: Error)

  /** The store after an operation, paired with what the operation returned or threw. */
  datatype Outcome<+T> = Outcome(store: Store, result: Result<T>)

  const NameMissing: string := "Client name is null or empty"
  const NameAndEmailMissing: string := "Client name and email can't be empty"

  /** The exception thrown by `save` and `update` when the name is empty. */
  const SaveRejected: Error := BadResource("Failed to save client", [NameMissing])

  /** The exception thrown by `updateNameEmail` when both fields are empty. */
  const UpdateRejected: Error := BadResource("Failed to update client", [NameAndEmailMissing])

  /** The repository's existence query: true exactly when a lookup of the id hits. */
  predicate ExistsById(s: Store, id: string)
    ensures ExistsById(s, id) <==> FindById(s, id).Ok?
  {
    id in s
  }

  /** Look a client up by id; a miss is a `NotFound`. */
  function FindById(s: Store, id: string): (r: Result<Client>)
    ensures r.Ok? <==> id in s
    ensures r.Ok? ==> r.value == s[id]
    ensures r.Err? ==> r.error == NotFound("Cannot find Client with id: " + id)
  {
    if id in s then Ok(s[id]) else Err(NotFound("Cannot find Client with id: " + id))
  }

  /** Insert a new client. The name guard comes first, then (for a non-null id)
      the existence guard. A null id past the name guard is handed to the
      persistence engine, whose key generation is not modelled. */
  function Save(s: Store, c: Client): (r: Outcome<Client>)
    requires c.id.Some? || IsEmpty(c.name)
    ensures r.result.Err? ==> r.store == s
    ensures IsEmpty(c.name) ==> r.result == Err(SaveRejected)
    ensures (r.result.Err? && r.result.error.AlreadyExists?) <==> (!IsEmpty(c.name) && c.id.value in s)
    ensures r.result.Ok? <==> !IsEmpty(c.name) && c.id.value !in s
    ensures r.result.Ok? ==>
              && r.result.value == c
              && r.store.Keys == s.Keys + {c.id.value}
              && r.store[c.id.value] == c
              && AgreeOutside(s, r.store, c.id.value)
              && |r.store| == |s| + 1
    ensures WellFormed(s) ==> WellFormed(r.store)
    ensures NamesPresent(s) ==> NamesPresent(r.store)
  {
    if !IsEmpty(c.name) then
      var id := c.id.value;
      if ExistsById(s, id) then
        Outcome(s, Err(AlreadyExists("Client with id: " + id + " already exists")))
      else
        Outcome(s[id := c], Ok(c))
    else
      Outcome(s, Err(SaveRejected))
  }

  /** Replace an existing client wholesale. The name guard comes first, then
      the existence guard. */
  function Update(s: Store, c: Client): (r: Outcome<()>)
    requires c.id.Some? || IsEmpty(c.name)
    ensures r.result.Err? ==> r.store == s
    ensures IsEmpty(c.name) ==> r.result == Err(SaveRejected)
    ensures !IsEmpty(c.name) && c.id.value !in s ==>
              r.result == Err(NotFound("Cannot find Client with id: " + c.id.value))
    ensures r.result.Ok? <==> !IsEmpty(c.name) && c.id.value in s
    ensures r.result.Ok? ==>
              && r.store.Keys == s.Keys
              && r.store[c.id.value] == c
              && AgreeOutside(s, r.store, c.id.value)
              && |r.store| == |s|
    ensures WellFormed(s) ==> WellFormed(r.store)
    ensures NamesPresent(s) ==> NamesPresent(r.store)
  {
    if !IsEmpty(c.name) then
      var id := c.id.value;
      if !ExistsById(s, id) then
        Outcome(s, Err(NotFound("Cannot find Client with id: " + id)))
      else
        Outcome(s[id := c], Ok(()))
    else
      Outcome(s, Err(SaveRejected))
  }

  /** Overwrite the stored name and/or e-mail, each only when the new value is
      non-empty. The lookup comes first, then a second existence check on the
      found row's id, then the joint emptiness guard. */
  function UpdateNameEmail(s: Store, id: string, name: Option<string>, email: Option<string>): (r: Outcome<()>)
    requires WellFormed(s)
    ensures r.result.Err? ==> r.store == s
    ensures id !in s ==> r.result == Err(NotFound("Cannot find Client with id: " + id))
    ensures id in s && IsEmpty(name) && IsEmpty(email) ==> r.result == Err(UpdateRejected)
    ensures r.result.Ok? <==> id in s && !(IsEmpty(name) && IsEmpty(email))
    ensures r.result.Ok? ==>
              && r.store.Keys == s.Keys
              && r.store[id].id == s[id].id
              && r.store[id].name == (if IsEmpty(name) then s[id].name else name)
              && r.store[id].email == (if IsEmpty(email) then s[id].email else email)
              && AgreeOutside(s, r.store, id)
    ensures WellFormed(r.store)
    ensures NamesPresent(s) ==> NamesPresent(r.store)
  {
    match FindById(s, id)
    case Err(e) => Outcome(s, Err(e))
    case Ok(client) =>
      var cid := client.id.value;
      if !ExistsById(s, cid) then
        Outcome(s, Err(NotFound("Cannot find Client with id: " + cid)))
      else if IsEmpty(name) && IsEmpty(email) then
        Outcome(s, Err(UpdateRejected))
      else
        var named := if !IsEmpty(name) then client.(name := name) else client;
        var merged := if !IsEmpty(email) then named.(email := email) else named;
        Outcome(s[cid := merged], Ok(()))
  }

  /** Remove a client; a missing id is a `NotFound`. */
  function DeleteById(s: Store, id: string): (r: Outcome<()>)
    ensures r.result.Err? ==> r.store == s
    ensures r.result.Err? ==> r.result.error == NotFound("Cannot find client with id: " + id)
    ensures r.result.Ok? <==> id in s
    ensures id !in r.store
    ensures r.result.Ok? ==>
              && r.store.Keys == s.Keys - {id}
              && AgreeOutside(s, r.store, id)
              && |r.store| == |s| - 1
    ensures WellFormed(s) ==> WellFormed(r.store)
    ensures NamesPresent(s) ==> NamesPresent(r.store)
  {
    if !ExistsById(s, id) then
      Outcome(s, Err(NotFound("Cannot find client with id: " + id)))
    else
      Outcome(s - {id}, Ok(()))
  }

  /** The number of stored clients. */
  function Count(s: Store): (n: nat)
    ensures n == 0 <==> s == map[]
    ensures n == |s.Keys|
  {
    |s|
  }

  /** Every stored client, once each, in an order the store chooses. */
  method FindAll(s: Store) returns (cs: seq<Client>)
    requires WellFormed(s)
    ensures |cs| == Count(s)
    ensures forall i :: 0 <= i < |cs| ==> cs[i].id.Some? && cs[i].id.value in s && s[cs[i].id.value] == cs[i]
    ensures forall k :: k in s ==> s[k] in cs
  {
    cs := [];
    var rest := s.Keys;
    while rest != {}
      invariant rest <= s.Keys
      invariant |cs| + |rest| == |s|
      invariant forall i :: 0 <= i < |cs| ==> cs[i].id.Some? && cs[i].id.value in s - rest && s[cs[i].id.value] == cs[i]
      invariant forall k :: k in s && k !in rest ==> s[k] in cs
      decreases rest
    {
      var k :| k in rest;
      cs := cs + [s[k]];
      rest := rest - {k};
    }
  }
}
