/**
 Sequences of service calls run one after another against the same store,
 and what can be said about the store at the end.
 */
module Traces {
  import opened Domain
  import opened ClientService

  /** One call into the service. */
  datatype Call =
    | Create(client: Client)
    | Replace(client: Client)
    | Amend(id: string, name: Option<string>, email: Option<string>)
    | Remove(id: string)

  /** A call the model covers: a save or update of a client without id is
      only modelled when the name guard rejects it. */
  predicate Modelled(call: Call)
  {
    (call.Create? || call.Replace?) ==> call.client.id.Some? || IsEmpty(call.client.name)
  }

  /** The store left by a run, with how many creates and deletes succeeded. */
  datatype Tally = Tally(store: Store, created: nat, deleted: nat)

  /** Perform one call and report whether it succeeded. */
  function Step(s: Store, call: Call): (r: (Store, bool))
    requires WellFormed(s) && Modelled(call)
    ensures WellFormed(r.0)
    ensures NamesPresent(s) ==> NamesPresent(r.0)
    ensures !r.1 ==> r.0 == s
  {
    match call
    case Create(c) => var o := Save(s, c); (o.store, o.result.Ok?)
    case Replace(c) => var o := Update(s, c); (o.store, o.result.Ok?)
    case Amend(id, n, e) => var o := UpdateNameEmail(s, id, n, e); (o.store, o.result.Ok?)
    case Remove(id) => var o := DeleteById(s, id); (o.store, o.result.Ok?)
  }

  /** Perform the calls in order, each against the store the previous one left. */
  function Run(s: Store, calls: seq<Call>): (t: Tally)
    requires WellFormed(s)
    requires forall i :: 0 <= i < |calls| ==> Modelled(calls[i])
    ensures WellFormed(t.store)
    decreases |calls|
  {
    if |calls| == 0 then Tally(s, 0, 0)
    else
      var (s1, ok) := Step(s, calls[0]);
      var rest := Run(s1, calls[1..]);
      Tally(rest.store,
            rest.created + (if ok && calls[0].Create? then 1 else 0),
            rest.deleted + (if ok && calls[0].Remove? then 1 else 0))
  }

  /** The count after any run is the starting count plus the successful
      creates minus the successful deletes; updates never change it. */
  lemma {:induction false} CountTracksCreatesAndDeletes(s: Store, calls: seq<Call>)
    requires WellFormed(s)
    requires forall i :: 0 <= i < |calls| ==> Modelled(calls[i])
    ensures Count(Run(s, calls).store) == Count(s) + Run(s, calls).created - Run(s, calls).deleted
    decreases |calls|
  {
    if |calls| > 0 {
      var (s1, ok) := Step(s, calls[0]);
      CountTracksCreatesAndDeletes(s1, calls[1..]);
    }
  }

  /** A run of calls never leaves a row with an empty name behind, provided
      there was none at the start. */
  lemma {:induction false} RunKeepsNamesPresent(s: Store, calls: seq<Call>)
    requires WellFormed(s) && NamesPresent(s)
    requires forall i :: 0 <= i < |calls| ==> Modelled(calls[i])
    ensures NamesPresent(Run(s, calls).store)
    decreases |calls|
  {
    if |calls| > 0 {
      var (s1, ok) := Step(s, calls[0]);
      RunKeepsNamesPresent(s1, calls[1..]);
    }
  }

  /** The save, read, update, read, delete, read sequence of the service's
      integration test, on any store that does not yet hold its id. */
  lemma AceScenario(s: Store)
    requires "9012345678" !in s
    ensures var c := Client(Some("9012345678"), Some("Portgas D. Ace"), Some("ace@whitebeard.com"));
            var s1 := Save(s, c).store;
            var c2 := c.(email := Some("ace@whitebeardpirat.es"));
            var s2 := Update(s1, c2).store;
            var s3 := DeleteById(s2, "9012345678").store;
            && Save(s, c).result.Ok?
            && FindById(s1, "9012345678").Ok?
            && FindById(s1, "9012345678").value.name == Some("Portgas D. Ace")
            && FindById(s1, "9012345678").value.email == Some("ace@whitebeard.com")
            && Update(s1, c2).result.Ok?
            && FindById(s2, "9012345678").value.email == Some("ace@whitebeardpirat.es")
            && DeleteById(s2, "9012345678").result.Ok?
            && FindById(s3, "9012345678").Err?
            && FindById(s3, "9012345678").error.NotFound?
            && s3 == s
  {
  }
}
