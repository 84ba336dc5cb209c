/**
 The HTTP layer over the client service: each endpoint calls one service
 operation and turns its outcome into a status code, a body and, for a
 creation, a Location header. An exception kind an endpoint does not catch
 leaves the handler as `Unhandled`.
 */
module ClientController {
  import opened Domain
  import opened ClientService

  const OK: int := 200
  const CREATED: int := 201
  const BAD_REQUEST: int := 400
  const NOT_FOUND: int := 404
  const CONFLICT: int := 409

  datatype Body = One(client: Client) | Many(clients: seq<Client>)

  datatype Response =
    | Reply(status: int, body: Option<Body>, location: Option<string>)
    | Unhandled(error: Error)

  /** The store after a request, paired with the response sent for it. */
  datatype Exchange = Exchange(store: Store, response: Response)

  /** The path of the resource created for `id`. */
  function ClientPath(id: string): (path: string)
  {
    "/api/clients/" + id
  }

  /** A status with neither body nor Location. */
  function Bare(status: int): (r: Response)
  {
    Reply(status, None, None)
  }

  /** GET catches only `NotFound`. */
  function GetReply(res: Result<Client>): (r: Response)
  {
    match res
    case Ok(c) => Reply(OK, Some(One(c)), None)
    case Err(NotFound(_)) => Bare(NOT_FOUND)
    case Err(e) => Unhandled(e)
  }

  /** POST answers with the request's client as body and the saved id in Location;
      it catches `AlreadyExists` and `BadResource`. */
  function PostReply(request: Client, res: Result<Client>): (r: Response)
  {
    match res
    case Ok(saved) =>
      if saved.id.Some? then Reply(CREATED, Some(One(request)), Some(ClientPath(saved.id.value)))
      else Reply(CREATED, Some(One(request)), Some(ClientPath("null")))
    case Err(AlreadyExists(_)) => Bare(CONFLICT)
    case Err(BadResource(_, _)) => Bare(BAD_REQUEST)
    case Err(e) => Unhandled(e)
  }

  /** PUT and PATCH catch `NotFound` and `BadResource` and answer with no body. */
  function UpdateReply(res: Result<()>): (r: Response)
  {
    match res
    case Ok(_) => Bare(OK)
    case Err(NotFound(_)) => Bare(NOT_FOUND)
    case Err(BadResource(_, _)) => Bare(BAD_REQUEST)
    case Err(e) => Unhandled(e)
  }

  /** DELETE catches only `NotFound`. */
  function DeleteReply(res: Result<()>): (r: Response)
  {
    match res
    case Ok(_) => Bare(OK)
    case Err(NotFound(_)) => Bare(NOT_FOUND)
    case Err(e) => Unhandled(e)
  }

  /** GET /api/clients: every stored client. */
  method FindAll(s: Store) returns (r: Response)
    requires WellFormed(s)
    ensures r.Reply? && r.status == OK && r.location.None?
    ensures r.body.Some? && r.body.value.Many?
    ensures |r.body.value.clients| == Count(s)
    ensures forall k :: k in s ==> s[k] in r.body.value.clients
    ensures forall c :: c in r.body.value.clients ==> c in s.Values
  {
    var cs := ClientService.FindAll(s);
    r := Reply(OK, Some(Many(cs)), None);
  }

  /** GET /api/clients/{clientId}. */
  function FindClientById(s: Store, clientId: string): (r: Response)
    ensures r.Reply? && r.location.None?
    ensures r.status == OK <==> clientId in s
    ensures r.status == OK ==> r.body == Some(One(s[clientId]))
    ensures r.status != OK ==> r.status == NOT_FOUND && r.body.None?
  {
    GetReply(ClientService.FindById(s, clientId))
  }

  /** POST /api/clients. */
  function AddClient(s: Store, client: Client): (e: Exchange)
    requires client.id.Some? || IsEmpty(client.name)
    ensures e.response.Reply?
    ensures e.response.status in {CREATED, CONFLICT, BAD_REQUEST}
    ensures e.response.status == BAD_REQUEST <==> IsEmpty(client.name)
    ensures e.response.status == CONFLICT <==> !IsEmpty(client.name) && client.id.value in s
    ensures e.response.status == CREATED ==>
              && e.response.body == Some(One(client))
              && e.response.location == Some(ClientPath(client.id.value))
              && e.store == s[client.id.value := client]
    ensures e.response.status != CREATED ==>
              e.response.body.None? && e.response.location.None? && e.store == s
  {
    var o := ClientService.Save(s, client);
    Exchange(o.store, PostReply(client, o.result))
  }

  /** PUT /api/clients/{clientId}: the path id replaces whatever id the body carries. */
  function UpdateClient(s: Store, client: Client, clientId: string): (e: Exchange)
    ensures e.response.Reply? && e.response.body.None? && e.response.location.None?
    ensures e.response.status in {OK, NOT_FOUND, BAD_REQUEST}
    ensures e.response.status == BAD_REQUEST <==> IsEmpty(client.name)
    ensures e.response.status == NOT_FOUND <==> !IsEmpty(client.name) && clientId !in s
    ensures e.response.status == OK ==> e.store == s[clientId := client.(id := Some(clientId))]
    ensures e.response.status != OK ==> e.store == s
  {
    var o := ClientService.Update(s, client.(id := Some(clientId)));
    Exchange(o.store, UpdateReply(o.result))
  }

  /** PATCH /api/clients/{clientId}: only the body's name and e-mail are forwarded. */
  function UpdateClientInfo(s: Store, clientId: string, client: Client): (e: Exchange)
    requires WellFormed(s)
    ensures e.response.Reply? && e.response.body.None? && e.response.location.None?
    ensures e.response.status in {OK, NOT_FOUND, BAD_REQUEST}
    ensures e.response.status == NOT_FOUND <==> clientId !in s
    ensures e.response.status == BAD_REQUEST <==>
              clientId in s && IsEmpty(client.name) && IsEmpty(client.email)
    ensures e.response.status == OK ==>
              e.store == s[clientId := s[clientId].(
                name := if IsEmpty(client.name) then s[clientId].name else client.name,
                email := if IsEmpty(client.email) then s[clientId].email else client.email)]
    ensures e.response.status != OK ==> e.store == s
  {
    var o := ClientService.UpdateNameEmail(s, clientId, client.name, client.email);
    Exchange(o.store, UpdateReply(o.result))
  }

  /** DELETE /api/clients/{clientId}. */
  function DeleteClientById(s: Store, clientId: string): (e: Exchange)
    ensures e.response.Reply? && e.response.body.None? && e.response.location.None?
    ensures e.response.status in {OK, NOT_FOUND}
    ensures e.response.status == OK <==> clientId in s
    ensures e.response.status == OK ==> e.store == s - {clientId}
    ensures e.response.status == NOT_FOUND ==> e.store == s
  {
    var o := ClientService.DeleteById(s, clientId);
    Exchange(o.store, DeleteReply(o.result))
  }

  /** The id in a PUT body has no effect on the exchange. */
  lemma UpdateClientIgnoresBodyId(s: Store, client: Client, clientId: string, bodyId: Option<string>)
    ensures UpdateClient(s, client.(id := bodyId), clientId) == UpdateClient(s, client, clientId)
  {
  }

  /** The id in a PATCH body has no effect on the exchange. */
  lemma UpdateClientInfoIgnoresBodyId(s: Store, clientId: string, client: Client, bodyId: Option<string>)
    requires WellFormed(s)
    ensures UpdateClientInfo(s, clientId, client.(id := bodyId)) == UpdateClientInfo(s, clientId, client)
  {
  }
}
