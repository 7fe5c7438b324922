/**
 The `Video` resource bound to `/videos/<id>`: one pure function per HTTP
 method, from (store, path id, request body) to a reply that carries the status,
 the response body and the store after the request.
 */
module VideoResource {
  import opened Options
  import opened VideoModel
  import opened RequestParsers

  const OK := 200
  const Created := 201
  const NoContent := 204
  const BadRequest := 400
  const NotFound := 404
  const Conflict := 409

  const NoVideoWithThatId: string := "nao foi encontrado nenhum video com esse id"
  const IdTaken: string := "id do video obtido"
  const VideoDoesNotExist: string := "Video nao existe"

  /** What goes back to the client. */
  datatype Body =
    | Record(video: Video)       // the row, marshalled as its four fields
    | Message(text: string)      // an abort with a message
    | ArgError(error: ParseError) // a validation failure, keyed by argument
    | Empty                      // the empty body of a deletion

  datatype Reply = Reply(status: int, body: Body, store: Store)

  /** GET: the stored row, or 404. Reading never changes the store. */
  function Get(s: Store, id: int): (r: Reply)
    ensures r.store == s
    ensures r.status == OK <==> id in s
    ensures id in s ==> r.body == Record(s[id])
    ensures id !in s ==> r.status == NotFound && r.body == Message(NoVideoWithThatId)
  {
    match Lookup(s, id)
    case None => Reply(NotFound, Message(NoVideoWithThatId), s)
    case Some(v) => Reply(OK, Record(v), s)
  }

  /**
   PUT: validate first; then refuse an id that is taken; otherwise insert the
   row built from the path id and the three arguments.
   */
  function Put(s: Store, id: int, b: RequestBody): (r: Reply)
    ensures ParsePut(b).Rejected? ==> r == Reply(BadRequest, ArgError(ParsePut(b).error), s)
    ensures ParsePut(b).Parsed? && id in s ==> r == Reply(Conflict, Message(IdTaken), s)
    ensures r.status == Created <==> b.name.Given? && b.views.Given? && b.likes.Given? && id !in s
    ensures r.status == Created ==>
              && r.store.Keys == s.Keys + {id}
              && r.store[id] == Video(id, b.name.value, b.views.value, b.likes.value)
              && r.store - {id} == s - {id}
              && r.body == Record(r.store[id])
    ensures r.status != Created ==> r.store == s
    ensures WellFormed(s) ==> WellFormed(r.store)
  {
    match ParsePut(b)
    case Rejected(e) => Reply(BadRequest, ArgError(e), s)
    case Parsed(a) =>
      if Lookup(s, id).Some? then
        Reply(Conflict, Message(IdTaken), s)
      else
        var v := Video(id, a.name, a.views, a.likes);
        Reply(Created, Record(v), s[id := v])
  }

  /** One `setattr` on a row: only the named column changes. */
  function SetAttr(v: Video, asg: Assignment): (r: Video)
    ensures r.id == v.id
    ensures r.name == (if asg.SetName? then asg.name else v.name)
    ensures r.views == (if asg.SetViews? then asg.views else v.views)
    ensures r.likes == (if asg.SetLikes? then asg.likes else v.likes)
  {
    match asg
    case SetName(n) => v.(name := n)
    case SetViews(n) => v.(views := n)
    case SetLikes(n) => v.(likes := n)
  }

  /**
   The update loop: for every item whose value is not `None`, set that column.
   A column no item names keeps its value, and the key is never touched.
   */
  function SetAttrs(v: Video, items: seq<Option<Assignment>>): (r: Video)
    ensures r.id == v.id
    ensures (forall i | 0 <= i < |items| :: items[i].None? || !items[i].value.SetName?) ==> r.name == v.name
    ensures (forall i | 0 <= i < |items| :: items[i].None? || !items[i].value.SetViews?) ==> r.views == v.views
    ensures (forall i | 0 <= i < |items| :: items[i].None? || !items[i].value.SetLikes?) ==> r.likes == v.likes
    decreases |items|
  {
    if |items| == 0 then v
    else
      var v' := if items[0].Some? then SetAttr(v, items[0].value) else v;
      SetAttrs(v', items[1..])
  }

  /** The declarative reading of an update: each supplied argument replaces its column. */
  function Overlay(v: Video, a: PatchArgs): Video {
    Video(v.id, a.name.GetOr(v.name), a.views.GetOr(v.views), a.likes.GetOr(v.likes))
  }

  /** Running the update loop over the parsed arguments is exactly the overlay. */
  lemma SetAttrsIsOverlay(v: Video, a: PatchArgs)
    ensures SetAttrs(v, Items(a)) == Overlay(v, a)
  {
    var items := Items(a);
    var v1 := if items[0].Some? then SetAttr(v, items[0].value) else v;
    var v2 := if items[1].Some? then SetAttr(v1, items[1].value) else v1;
    var v3 := if items[2].Some? then SetAttr(v2, items[2].value) else v2;
    assert SetAttrs(v, items) == SetAttrs(v1, items[1..]);
    assert SetAttrs(v1, items[1..]) == SetAttrs(v2, items[2..]);
    assert SetAttrs(v2, items[2..]) == SetAttrs(v3, items[3..]);
  }

  /**
   PATCH: validate first; then 404 on an absent id; otherwise overwrite the
   supplied columns of that one row and nothing else.
   */
  function Patch(s: Store, id: int, b: RequestBody): (r: Reply)
    ensures ParsePatch(b).Rejected? ==> r == Reply(BadRequest, ArgError(ParsePatch(b).error), s)
    ensures ParsePatch(b).Parsed? && id !in s ==> r == Reply(NotFound, Message(VideoDoesNotExist), s)
    ensures r.status == OK <==> !b.name.Malformed? && !b.views.Malformed? && !b.likes.Malformed? && id in s
    ensures r.status == OK ==>
              && r.store.Keys == s.Keys
              && r.store - {id} == s - {id}
              && r.store[id].id == s[id].id
              && r.store[id].name == (if b.name.Given? then b.name.value else s[id].name)
              && r.store[id].views == (if b.views.Given? then b.views.value else s[id].views)
              && r.store[id].likes == (if b.likes.Given? then b.likes.value else s[id].likes)
              && r.body == Record(r.store[id])
    ensures r.status != OK ==> r.store == s
    ensures WellFormed(s) ==> WellFormed(r.store)
  {
    match ParsePatch(b)
    case Rejected(e) => Reply(BadRequest, ArgError(e), s)
    case Parsed(a) =>
      match Lookup(s, id)
      case None => Reply(NotFound, Message(VideoDoesNotExist), s)
      case Some(v) =>
        SetAttrsIsOverlay(v, a);
        var v' := SetAttrs(v, Items(a));
        Reply(OK, Record(v'), s[id := v'])
  }

  /** DELETE: 404 on an absent id; otherwise remove that one row and reply with no body. */
  function Delete(s: Store, id: int): (r: Reply)
    ensures r.status == NoContent <==> id in s
    ensures id in s ==>
              && r.body == Empty
              && r.store.Keys == s.Keys - {id}
              && forall k | k in r.store :: r.store[k] == s[k]
    ensures id !in s ==> r == Reply(NotFound, Message(VideoDoesNotExist), s)
    ensures WellFormed(s) ==> WellFormed(r.store)
  {
    match Lookup(s, id)
    case None => Reply(NotFound, Message(VideoDoesNotExist), s)
    case Some(_) => Reply(NoContent, Empty, s - {id})
  }
}
