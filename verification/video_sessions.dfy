/**
 Requests against the resource, one after another: the dispatch of a request
 to its handler, a run of several requests over one store, and the properties
 that relate consecutive operations.
 */
module VideoSessions {
  import opened Options
  import opened VideoModel
  import opened RequestParsers
  import opened VideoResource

  datatype Verb = GET | PUT(putBody: RequestBody) | PATCH(patchBody: RequestBody) | DELETE

  /** A request to `/videos/<id>`. */
  datatype Request = Request(verb: Verb, id: int)

  /** Dispatch to the resource's handler for the request's method. */
  function Handle(s: Store, rq: Request): (r: Reply)
    ensures r.store - {rq.id} == s - {rq.id}
    ensures r.status in {OK, Created, NoContent, BadRequest, NotFound, Conflict}
    ensures WellFormed(s) ==> WellFormed(r.store)
  {
    match rq.verb
    case GET => Get(s, rq.id)
    case PUT(b) => Put(s, rq.id, b)
    case PATCH(b) => Patch(s, rq.id, b)
    case DELETE => Delete(s, rq.id)
  }

  /** The store after a run of requests, and the status of each reply. */
  datatype Trace = Trace(store: Store, statuses: seq<int>)

  /** Serve the requests in order, each against the store the previous one left. */
  function Run(s: Store, rqs: seq<Request>): (t: Trace)
    ensures |t.statuses| == |rqs|
    ensures WellFormed(s) ==> WellFormed(t.store)
    decreases |rqs|
  {
    if |rqs| == 0 then Trace(s, [])
    else
      var r := Handle(s, rqs[0]);
      var rest := Run(r.store, rqs[1..]);
      Trace(rest.store, [r.status] + rest.statuses)
  }

  /** A body that supplies every argument of an existing row. */
  function BodyOf(v: Video): (b: RequestBody)
    ensures ParsePut(b) == Parsed(PutArgs(v.name, v.views, v.likes))
  {
    RequestBody(Given(v.name), Given(v.views), Given(v.likes))
  }

  /** A successful creation is visible to the next read, with exactly the supplied fields. */
  lemma GetAfterPut(s: Store, id: int, b: RequestBody)
    requires Put(s, id, b).status == Created
    ensures Get(Put(s, id, b).store, id)
              == Reply(OK, Record(Video(id, b.name.value, b.views.value, b.likes.value)), Put(s, id, b).store)
  {
  }

  /** Creating at an id that is taken changes nothing, and so does a second identical creation. */
  lemma PutTwice(s: Store, id: int, b: RequestBody)
    requires ParsePut(b).Parsed?
    ensures Put(Put(s, id, b).store, id, b) == Reply(Conflict, Message(IdTaken), Put(s, id, b).store)
  {
  }

  /** Deleting what was just created restores the store exactly. */
  lemma DeleteUndoesPut(s: Store, id: int, b: RequestBody)
    requires Put(s, id, b).status == Created
    ensures Delete(Put(s, id, b).store, id).status == NoContent
    ensures Delete(Put(s, id, b).store, id).store == s
  {
  }

  /** Re-creating a deleted row from its own fields restores the store exactly. */
  lemma PutUndoesDelete(s: Store, id: int)
    requires WellFormed(s)
    requires id in s
    ensures Put(Delete(s, id).store, id, BodyOf(s[id])).status == Created
    ensures Put(Delete(s, id).store, id, BodyOf(s[id])).store == s
  {
  }

  /** After a successful deletion the id reads as absent, and a second deletion is a 404 that changes nothing. */
  lemma DeleteThenGetAndDelete(s: Store, id: int)
    requires id in s
    ensures Get(Delete(s, id).store, id).status == NotFound
    ensures Delete(Delete(s, id).store, id) == Reply(NotFound, Message(VideoDoesNotExist), Delete(s, id).store)
  {
  }

  /** An update that supplies nothing returns the stored row and leaves the store as it was. */
  lemma PatchNothingIsIdentity(s: Store, id: int)
    requires id in s
    ensures Patch(s, id, RequestBody(Missing, Missing, Missing)) == Reply(OK, Record(s[id]), s)
  {
  }

  /** Repeating an update gives the same reply and the same store as applying it once. */
  lemma PatchIdempotent(s: Store, id: int, b: RequestBody)
    ensures Patch(Patch(s, id, b).store, id, b) == Patch(s, id, b)
  {
  }

  /** The later body's given arguments win over the earlier body's. */
  function Merge(b1: RequestBody, b2: RequestBody): RequestBody {
    RequestBody(if b2.name.Given? then b2.name else b1.name,
                if b2.views.Given? then b2.views else b1.views,
                if b2.likes.Given? then b2.likes else b1.likes)
  }

  /** Two valid updates in a row amount to one update with the merged body. */
  lemma PatchThenPatch(s: Store, id: int, b1: RequestBody, b2: RequestBody)
    requires ParsePatch(b1).Parsed? && ParsePatch(b2).Parsed?
    ensures Patch(Patch(s, id, b1).store, id, b2) == Patch(s, id, Merge(b1, b2))
  {
  }

  /**
   Validation comes before any store access: a body the parser rejects gets the
   same reply whatever the store holds and whatever the id, and changes nothing.
   */
  lemma ValidationPrecedesLookup(s1: Store, s2: Store, id1: int, id2: int, b: RequestBody)
    ensures ParsePut(b).Rejected? ==>
              && Put(s1, id1, b).status == Put(s2, id2, b).status == BadRequest
              && Put(s1, id1, b).body == Put(s2, id2, b).body
              && Put(s1, id1, b).store == s1
    ensures ParsePatch(b).Rejected? ==>
              && Patch(s1, id1, b).status == Patch(s2, id2, b).status == BadRequest
              && Patch(s1, id1, b).body == Patch(s2, id2, b).body
              && Patch(s1, id1, b).store == s1
  {
  }

  /** A row no request of the run addresses is the same at the end as at the start. */
  lemma {:induction false} RunFrame(s: Store, rqs: seq<Request>, k: int)
    requires forall i | 0 <= i < |rqs| :: rqs[i].id != k
    ensures k in Run(s, rqs).store <==> k in s
    ensures k in s ==> Run(s, rqs).store[k] == s[k]
    decreases |rqs|
  {
    if |rqs| > 0 {
      var r := Handle(s, rqs[0]);
      assert k in r.store <==> k in s by {
        assert k in r.store - {rqs[0].id} <==> k in s - {rqs[0].id};
      }
      if k in s {
        assert r.store[k] == (r.store - {rqs[0].id})[k];
      }
      RunFrame(r.store, rqs[1..], k);
    }
  }

  /** A row present at the end of a run but not at its start was created by a PUT on its id that answered 201. */
  lemma {:induction false} RunCreatesOnlyByPut(s: Store, rqs: seq<Request>, k: int)
    requires k !in s && k in Run(s, rqs).store
    ensures exists i | 0 <= i < |rqs| ::
              rqs[i].id == k && rqs[i].verb.PUT? && Run(s, rqs).statuses[i] == Created
    decreases |rqs|
  {
    var r := Handle(s, rqs[0]);
    var rest := Run(r.store, rqs[1..]);
    if k in r.store {
      assert k in r.store - {rqs[0].id} <==> k in s - {rqs[0].id};
      assert rqs[0].id == k;
      assert rqs[0].verb.PUT? && r.status == Created;
      assert Run(s, rqs).statuses[0] == Created;
    } else {
      RunCreatesOnlyByPut(r.store, rqs[1..], k);
      var j :| 0 <= j < |rqs| - 1 && rqs[1..][j].id == k && rqs[1..][j].verb.PUT? && rest.statuses[j] == Created;
      assert Run(s, rqs).statuses[j + 1] == rest.statuses[j];
    }
  }

  /** A row present at the start of a run but not at its end was removed by a DELETE on its id that answered 204. */
  lemma {:induction false} RunRemovesOnlyByDelete(s: Store, rqs: seq<Request>, k: int)
    requires k in s && k !in Run(s, rqs).store
    ensures exists i | 0 <= i < |rqs| ::
              rqs[i].id == k && rqs[i].verb.DELETE? && Run(s, rqs).statuses[i] == NoContent
    decreases |rqs|
  {
    var r := Handle(s, rqs[0]);
    var rest := Run(r.store, rqs[1..]);
    if k !in r.store {
      assert k in r.store - {rqs[0].id} <==> k in s - {rqs[0].id};
      assert rqs[0].id == k;
      assert rqs[0].verb.DELETE? && r.status == NoContent;
      assert Run(s, rqs).statuses[0] == NoContent;
    } else {
      RunRemovesOnlyByDelete(r.store, rqs[1..], k);
      var j :| 0 <= j < |rqs| - 1 && rqs[1..][j].id == k && rqs[1..][j].verb.DELETE? && rest.statuses[j] == NoContent;
      assert Run(s, rqs).statuses[j + 1] == rest.statuses[j];
    }
  }

  /** Create, update one field, delete, read. */
  lemma IntroScenario()
    ensures
      var s0: Store := map[];
      var r1 := Put(s0, 1, RequestBody(Given("intro"), Given(0), Given(0)));
      var r2 := Patch(r1.store, 1, RequestBody(Missing, Missing, Given(10)));
      var r3 := Delete(r2.store, 1);
      var r4 := Get(r3.store, 1);
      && r1.status == Created && r1.body == Record(Video(1, "intro", 0, 0))
      && r2.status == OK && r2.body == Record(Video(1, "intro", 0, 10))
      && r3.status == NoContent && r3.body == Empty
      && r4.status == NotFound && r4.store == s0
  {
  }
}
