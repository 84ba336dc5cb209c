# Client lifecycle service, modelled in Dafny

A model of the client CRUD API of `spring-rest-example`. It covers the service
layer's lifecycle rules and the controller's mapping of outcomes to HTTP
statuses.

- `domain.dfy` (module `Domain`) holds the `Client` entity. Its `id`, `name`
  and `email` are each an `Option<string>`, because the Java fields may be null.
  It also holds the store, an immutable `map<string, Client>` from primary key
  to row, and `IsEmpty`, which is Spring's `ObjectUtils.isEmpty` on a String:
  null, or length zero, with no trimming. `WellFormed` says that every row
  carries its own key as its id. `NamesPresent` says that no stored row has an
  empty name.
- `client_service.dfy` (module `ClientService`) models each service method.
  The four writes (`Save`, `Update`, `UpdateNameEmail`, `DeleteById`) are pure
  functions returning an `Outcome`: the store afterwards, plus either the
  returned value or the exception thrown. `ExistsById` returns a boolean,
  `FindById` a `Result`, and `Count` a natural number. `FindAll` is a method
  that lists the store by walking its key set. There are three exception kinds,
  `NotFound`, `AlreadyExists` and `BadResource`, and each carries the literal
  message the service builds. Every write preserves `NamesPresent`: no stored
  row has an empty name.
- `service_laws.dfy` (module `ServiceLaws`) relates the operations to each
  other. It covers what a later lookup sees, which guard wins when several
  apply, and the save/delete round trips.
- `client_controller.dfy` (module `ClientController`) models each endpoint as a
  function from the store and the request to the new store and the response:
  status, optional body, optional Location. An exception kind that an endpoint
  does not catch comes out as `Unhandled`, and every endpoint's contract proves
  that this never happens.
- `traces.dfy` (module `Traces`) runs sequences of service calls. It proves
  that the count tracks successful creates minus successful deletes. It also
  replays the integration test's save/update/delete scenario.

Points of the source that the model keeps as written:

- The entity's `@NotBlank` on `name`
  (src/main/java/com/api/example/domain/Client.java:26) trims whitespace. The
  service's own guard, `ObjectUtils.isEmpty`
  (src/main/java/com/api/example/service/ClientService.java:56), does not: it
  rejects only null or zero-length names. The model follows the service's
  guard, so a name made of spaces passes it. `ServiceLaws.BlankNameIsNotEmpty`
  proves this.
- The error messages are the literals of
  src/main/java/com/api/example/service/ClientService.java:31,58-59,64,73,78,87,91,105.
  `update` reuses the summary "Failed to save client", and `deleteById` says
  "Cannot find client with id: " with a lower-case "client", unlike the other
  lookups.

## Model

| member | source | states |
|---|---|---|
| ClientService.ExistsById | src/main/java/com/api/example/service/ClientService.java:24-26 | The existence query holds exactly when a lookup of the same id succeeds. |
| ClientService.FindById | src/main/java/com/api/example/service/ClientService.java:28-33 | Succeeds exactly when the id is stored and returns that row; otherwise it is `NotFound` with the "Cannot find Client with id: " message. It returns no store, so it cannot change one. |
| ClientService.Save | src/main/java/com/api/example/service/ClientService.java:55-67 | An empty name gives `BadResource("Failed to save client", ["Client name is null or empty"])` whatever the id. A non-empty name on a stored id gives `AlreadyExists`. Success happens exactly when the name is non-empty and the id is new. On success the result is the input client, the key set gains exactly that id, the row is the input, every other row is unchanged and the size grows by one. Failure leaves the store as it was. Well-formedness is preserved, and so is `NamesPresent`. |
| ClientService.Update | src/main/java/com/api/example/service/ClientService.java:69-81 | An empty name gives the same `BadResource`, checked before existence. A non-empty name on an absent id gives `NotFound`. Success happens exactly when the name is non-empty and the id is stored. On success the row is replaced wholesale, the key set and size stay the same and other rows are unchanged. Failure leaves the store as it was. |
| ClientService.UpdateNameEmail | src/main/java/com/api/example/service/ClientService.java:83-100 | An absent id gives `NotFound` whatever the fields are, because the lookup comes first. A stored id with both fields empty gives `BadResource("Failed to update client", ["Client name and email can't be empty"])`. On success the name is overwritten only when the new name is non-empty, and the email only when the new email is non-empty. The id, the key set and the other rows are unchanged. Failure leaves the store as it was. |
| ClientService.DeleteById | src/main/java/com/api/example/service/ClientService.java:103-109 | Succeeds exactly when the id is stored; otherwise it is `NotFound` ("Cannot find client with id: ") and the store is unchanged. Afterwards the id is absent, the key set has lost exactly that id, other rows are unchanged and the size drops by one. |
| ClientService.Count | src/main/java/com/api/example/service/ClientService.java:111-113 | The count is the number of distinct stored ids, and it is zero exactly for the empty store. |
| ClientService.FindAll | src/main/java/com/api/example/service/ClientService.java:41-45 | The list has exactly `Count` entries. Every entry is the row stored under its own id, and every stored row appears, so each appears once. |
| ServiceLaws.SaveThenFind | src/test/java/com/api/example/service/ClientServiceJPATest.java:38-43 | After a successful save, the lookup of its id returns the saved client, with the same name and email. |
| ServiceLaws.SaveKeepsOthers | src/main/java/com/api/example/service/ClientService.java:61 | A save never changes the lookup result for any other id. |
| ServiceLaws.SaveNameGuardFirst | src/main/java/com/api/example/service/ClientService.java:56-66 | An empty name on an id that is already stored gives `BadResource`, not `AlreadyExists`, and the store is unchanged. |
| ServiceLaws.BlankNameIsNotEmpty | src/main/java/com/api/example/service/ClientService.java:56 | A name made only of spaces passes the service's name guard, so the model's save of a new id succeeds. |
| ServiceLaws.SaveTwiceConflicts | src/main/java/com/api/example/service/ClientService.java:57-60 | Repeating a successful save gives `AlreadyExists` and leaves the stored record as the first save wrote it. |
| ServiceLaws.UpdateThenFind | src/test/java/com/api/example/service/ClientServiceJPATest.java:46-51 | After a successful update, the lookup returns the new client, including its new email. |
| ServiceLaws.UpdateIdempotent | src/main/java/com/api/example/service/ClientService.java:75 | Updating twice with the same client gives the same outcome and store as updating once. |
| ServiceLaws.UpdateNameEmailLookupFirst | src/main/java/com/api/example/service/ClientService.java:85-92 | On an absent id, a partial update with both fields null gives `NotFound`, not `BadResource`. |
| ServiceLaws.UpdateEmailOnly | src/main/java/com/api/example/service/ClientService.java:93-98 | Supplying only an email succeeds on a stored id. The row afterwards is the old row with just the email replaced. |
| ServiceLaws.UpdateNameEmailIsMergedUpdate | src/main/java/com/api/example/service/ClientService.java:89-98 | Take a stored id with at least one field supplied. The partial update has the same outcome as a full update with the merged row exactly when the merged name is non-empty. The partial update never re-checks the stored name, unlike the full update's guard at line 71. So over a stored row with an empty name and no new name, the partial update succeeds while the full update is `BadResource`. |
| ServiceLaws.UpdateNameEmailIsMergedUpdateWhenNamesPresent | src/main/java/com/api/example/service/ClientService.java:93-98 | In a store where every name is present, every successful partial update has the same outcome and store as the full update with its merged row. |
| ServiceLaws.DeleteThenFind | src/test/java/com/api/example/service/ClientServiceJPATest.java:54-58 | After a successful delete, the lookup of that id gives `NotFound`. |
| ServiceLaws.SaveThenDelete | src/main/java/com/api/example/service/ClientService.java:103-109 | Deleting the id just saved succeeds and gives back exactly the store from before the save. |
| ServiceLaws.DeleteThenSave | src/main/java/com/api/example/service/ClientService.java:55-67 | Saving back a just-deleted row (one whose name is non-empty) succeeds and gives back exactly the original store. |
| ServiceLaws.CountAfterWrites | src/main/java/com/api/example/service/ClientService.java:111-113 | A successful save adds one to the count and a successful delete removes one. Updates, partial updates and failures leave it unchanged. |
| Traces.Step | src/main/java/com/api/example/service/ClientService.java:55-109 | Any single service call keeps the store well-formed, keeps every stored name present when all were before, and leaves the store unchanged when it fails. |
| Traces.Run | src/main/java/com/api/example/service/ClientService.java:55-109 | After any sequence of calls, the store is still well-formed. |
| Traces.RunKeepsNamesPresent | src/main/java/com/api/example/service/ClientService.java:55-100 | After any sequence of calls, no stored name is empty, provided none was at the start. |
| Traces.CountTracksCreatesAndDeletes | src/main/java/com/api/example/service/ClientService.java:111-113 | After any sequence of calls, the count is the starting count plus the successful creates minus the successful deletes. |
| Traces.AceScenario | src/test/java/com/api/example/service/ClientServiceJPATest.java:32-59 | On any store without id "9012345678", the test's sequence does the following. The save succeeds and the lookup shows the name and email. The update succeeds and the lookup shows the new email. The delete succeeds and the final lookup is `NotFound`. The store ends as it began. |
| ClientController.FindAll | src/main/java/com/api/example/controller/ClientController.java:39-41 | Returns 200 with a list of exactly `Count` clients. The list contains every stored row, and every entry is a stored row. |
| ClientController.FindClientById | src/main/java/com/api/example/controller/ClientController.java:51-58 | Returns 200 with the stored client exactly when the id is stored; otherwise 404 with a null body. |
| ClientController.AddClient | src/main/java/com/api/example/controller/ClientController.java:68-83 | The status is always one of 201, 409 or 400. It is 400 exactly when the name is empty, and 409 exactly when the name is non-empty and the id is stored. 201 comes with the request client as the body, Location "/api/clients/" + id, and the client stored under its id. Other statuses have no body and no Location, and leave the store alone. |
| ClientController.UpdateClient | src/main/java/com/api/example/controller/ClientController.java:93-108 | The response never has a body. It is 400 exactly when the name is empty, and 404 exactly when the name is non-empty and the path id is absent. On 200 the path id's row becomes the body client with its id set to the path id. Otherwise the store is unchanged. |
| ClientController.UpdateClientInfo | src/main/java/com/api/example/controller/ClientController.java:116-130 | The response never has a body. It is 404 exactly when the path id is absent, and 400 exactly when the id is stored and both the body's name and email are empty. Otherwise it is 200, and the stored row takes the body's name and email, each only when that field is non-empty. A non-200 leaves the store unchanged. |
| ClientController.DeleteClientById | src/main/java/com/api/example/controller/ClientController.java:137-145 | The status is 200 exactly when the id is stored, in which case that key alone is removed. Otherwise it is 404 with the store unchanged. There is never a body, and no exception kind escapes the handler. |
| ClientController.UpdateClientIgnoresBodyId | src/main/java/com/api/example/controller/ClientController.java:96 | The id in a PUT body has no effect: the exchange is the same for every body id. |
| ClientController.UpdateClientInfoIgnoresBodyId | src/main/java/com/api/example/controller/ClientController.java:119 | The id in a PATCH body has no effect: only its name and email are forwarded. |

## Left out

- `findAllFromPage` is left out because its result is the persistence framework's paging, which is not part of this model.
- `findAllByName` is left out because its filter comes from `ClientSpecification`, which is not part of this model.
- The order of `findAll` belongs to the store. `ClientService.FindAll` picks keys in an unspecified order and promises nothing about it.
- ClientService.Save and ClientService.Update require a non-null id whenever the name is non-empty. With a null id, `save` hands the entity to the persistence engine, whose key handling is not modelled. `update` would call `existsById(null)`, which the repository rejects with an exception outside the three domain kinds. The empty-name path is modelled for every id.
- ClientService.UpdateNameEmail, ClientService.FindAll, ClientController.FindAll and ClientController.UpdateClientInfo require a well-formed store, in which every row's id is its key, as the persistence engine guarantees. Under that condition, the second existence check of `UpdateNameEmail` (on the found row's id) is modelled literally and provably never fires.
- ClientService.Count returns an unbounded `nat`. The Java `Long` cannot overflow for any table this service could hold.
- ClientController.AddClient: the 201 clause assumes an id that is legal in a URI path. The handler saves the row first and then builds `new URI("/api/clients/" + id)`. For an id such as "a b" that constructor throws a `URISyntaxException`, which neither catch handles. The real response is then not 201, yet the row stays stored; the model answers 201. URI syntax is not modelled. The endpoint also needs the same non-null id as `Save` whenever the name is non-empty.
- The entity's `@NotBlank` constraint is not enforced by the map store. In the source, `@Valid` on the POST and PUT bodies checks it before the handler runs, and JPA may check it again on every repository save (service lines 61, 75 and 98), if a Bean Validation provider is configured. That configuration is not part of this model. Such a check trims whitespace, so a real save could refuse a name made of spaces, with an exception outside the three domain kinds, where the model accepts it.
- Logging, the Swagger annotations, the second-level cache annotation and dependency injection are not modelled.
- `FindById`, `UpdateNameEmail` and `DeleteById` take a non-null `string` id, so a null id cannot be passed in the model. The Java methods accept null, and the repository then rejects it with an `IllegalArgumentException`, which is outside the three domain kinds. No controller path passes a null id, because every one of them takes the id from the request path.
- The check-then-act race between `existsById` and `save` under concurrent requests is not modelled. Each call here is atomic over an immutable store.
- `ClientRepository` is replaced by the map. Each repository call the service makes becomes a map operation:
  - `existsById` becomes key membership, as in `ClientService.ExistsById`;
  - `findById` becomes a lookup;
  - `findAll` becomes a walk over the key set;
  - `save` becomes a map update at the entity's id;
  - `deleteById` becomes key removal;
  - `count` becomes the map's size.
