/** The gateway's review store and the four routes over it. */
module Reviews {
  import opened Wrappers

  datatype Choice = Approved | Rejected

  datatype Payload = Payload(status: string, body: string)

  datatype Record = Record(payload: Payload, decision: Option<Choice>)

  type Store = map<string, Record>

  datatype HttpError = NotFound | BadRequest

  function StatusOf(c: Choice): string {
    if c.Approved? then "approved" else "rejected"
  }

  class ReviewStore {
    var store: Store

    constructor ()
      ensures store == map[]
    {
      store := map[];
    }

    method Put(thread: string, payload: Payload)
      modifies this
      ensures store == old(store)[thread := Record(payload, None)]
    {
      store := store[thread := Record(payload, None)];
    }

    method Get(thread: string) returns (r: Option<Record>)
      ensures r == if thread in store then Some(store[thread]) else None
    {
      r := if thread in store then Some(store[thread]) else None;
    }

    /** The stored payload; a recorded decision shows as its status. */
    method GetPayload(thread: string) returns (r: Option<Payload>)
      ensures r.Some? <==> thread in store
      ensures r.Some? ==> r.value.body == store[thread].payload.body
      ensures r.Some? ==>
                var decision := store[thread].decision;
                r.value.status == if decision == Some(Approved) then "approved"
                                  else if decision == Some(Rejected) then "rejected"
                                  else store[thread].payload.status
    {
      var rec := Get(thread);
      if rec.None? {
        return None;
      }
      var out := rec.value.payload;
      if rec.value.decision.Some? {
        out := out.(status := StatusOf(rec.value.decision.value));
      }
      return Some(out);
    }

    method SetDecision(thread: string, choice: Choice) returns (known: bool)
      modifies this
      ensures known <==> thread in old(store)
      ensures store == Next(old(store), Decide(thread, choice))
    {
      if thread !in store {
        return false;
      }
      store := store[thread := store[thread].(decision := Some(choice))];
      return true;
    }

    method Delete(thread: string) returns (existed: bool)
      modifies this
      ensures existed <==> thread in old(store)
      ensures store == old(store) - {thread}
    {
      existed := thread in store;
      store := store - {thread};
    }

    // ---- The routes ----

    method CreatePendingReview(thread: string, payload: Payload)
      modifies this
      ensures store == Next(old(store), Create(thread, payload))
    {
      Put(thread, payload);
    }

    method DecideReview(thread: string, choice: Choice) returns (r: Result<Choice, HttpError>)
      modifies this
      ensures store == Next(old(store), Decide(thread, choice))
      ensures r == if thread in old(store) then Ok(choice) else Err(BadRequest)
    {
      var known := SetDecision(thread, choice);
      r := if known then Ok(choice) else Err(BadRequest);
    }

    /** The guards of the resume route: the decision it forwards to the orchestrator, or its refusal. */
    method ResumeReview(thread: string) returns (r: Result<Choice, HttpError>)
      ensures r == Forwarded(store, thread)
    {
      var rec := Get(thread);
      if rec.None? {
        return Err(NotFound);
      }
      if rec.value.decision.None? {
        return Err(BadRequest);
      }
      return Ok(rec.value.decision.value);
    }
  }

  // ---- What a call does to the store ---------------------------------------

  datatype Call =
    | Create(thread: string, payload: Payload) | Decide(thread: string, choice: Choice) | Resume(thread: string)

  function Next(store: Store, call: Call): Store {
    match call
    case Create(t, payload) => store[t := Record(payload, None)]
    case Decide(t, choice) => if t in store then store[t := store[t].(decision := Some(choice))] else store
    case Resume(_) => store
  }

  function Forwarded(store: Store, thread: string): Result<Choice, HttpError> {
    if thread !in store then Err(NotFound)
    else if store[thread].decision.None? then Err(BadRequest)
    else Ok(store[thread].decision.value)
  }
}
