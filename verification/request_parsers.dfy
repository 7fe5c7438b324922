/**
 The two request parsers of the resource: the one for creation, where every
 argument is required, and the one for partial update, where every argument is
 optional. Arguments are declared, and checked, in the order name, views, likes.
 */
module RequestParsers {
  import opened Options

  /** What the request carried for one declared argument. */
  datatype Field<T> =
    | Missing           // not in the request (for the update parser, also an explicit null)
    | Malformed         // present, but its coercion to the declared type failed
                        // (never the case for `name`, whose coercion accepts any value)
    | Given(value: T)   // present and coerced

  /** The three arguments of a request body, before validation. */
  datatype RequestBody = RequestBody(name: Field<string>, views: Field<int>, likes: Field<int>)

  datatype ArgName = Name | Views | Likes

  /** Position of an argument in declaration order. */
  function Rank(a: ArgName): nat {
    match a
    case Name => 0
    case Views => 1
    case Likes => 2
  }

  const NameHelp: string := "Nome do video é necessario"
  const ViewsHelp: string := "Views do video"
  const LikesHelp: string := "Likes do video"

  /** The help text declared with each argument; it is the error message. */
  function Help(a: ArgName): string {
    match a
    case Name => NameHelp
    case Views => ViewsHelp
    case Likes => LikesHelp
  }

  /** A validation failure names the offending argument and carries its help. */
  datatype ParseError = ParseError(arg: ArgName, help: string)

  datatype Parsed<T> = Parsed(args: T) | Rejected(error: ParseError)

  /** Validated arguments of a creation request. */
  datatype PutArgs = PutArgs(name: string, views: int, likes: int)

  /** Validated arguments of an update request; `None` where nothing was supplied. */
  datatype PatchArgs = PatchArgs(name: Option<string>, views: Option<int>, likes: Option<int>)

  /** Whether argument `a` of `b` passes the creation parser (required: must be given). */
  predicate PutAccepts(b: RequestBody, a: ArgName) {
    match a
    case Name => b.name.Given?
    case Views => b.views.Given?
    case Likes => b.likes.Given?
  }

  /** Whether argument `a` of `b` passes the update parser (optional: must not be malformed). */
  predicate PatchAccepts(b: RequestBody, a: ArgName) {
    match a
    case Name => !b.name.Malformed?
    case Views => !b.views.Malformed?
    case Likes => !b.likes.Malformed?
  }

  /**
   The creation parser: the first argument, in declaration order, that is
   missing or malformed rejects the request; otherwise all three are returned.
   */
  function ParsePut(b: RequestBody): (r: Parsed<PutArgs>)
    ensures r.Parsed? <==> b.name.Given? && b.views.Given? && b.likes.Given?
    ensures r.Parsed? ==> r.args == PutArgs(b.name.value, b.views.value, b.likes.value)
    ensures r.Rejected? ==>
              && !PutAccepts(b, r.error.arg)
              && r.error.help == Help(r.error.arg)
              && forall a: ArgName :: Rank(a) < Rank(r.error.arg) ==> PutAccepts(b, a)
  {
    if !b.name.Given? then Rejected(ParseError(Name, NameHelp))
    else if !b.views.Given? then Rejected(ParseError(Views, ViewsHelp))
    else if !b.likes.Given? then Rejected(ParseError(Likes, LikesHelp))
    else Parsed(PutArgs(b.name.value, b.views.value, b.likes.value))
  }

  /** An optional argument's value: `None` unless it was given. */
  function OptionOf<T>(f: Field<T>): Option<T>
    requires !f.Malformed?
  {
    if f.Given? then Some(f.value) else None
  }

  /**
   The update parser: the first malformed argument, in declaration order,
   rejects the request; otherwise each argument is its value or `None`.
   */
  function ParsePatch(b: RequestBody): (r: Parsed<PatchArgs>)
    ensures r.Parsed? <==> !b.name.Malformed? && !b.views.Malformed? && !b.likes.Malformed?
    ensures r.Parsed? ==>
              && (r.args.name.Some? <==> b.name.Given?)
              && (r.args.views.Some? <==> b.views.Given?)
              && (r.args.likes.Some? <==> b.likes.Given?)
              && (b.name.Given? ==> r.args.name.value == b.name.value)
              && (b.views.Given? ==> r.args.views.value == b.views.value)
              && (b.likes.Given? ==> r.args.likes.value == b.likes.value)
    ensures r.Rejected? ==>
              && !PatchAccepts(b, r.error.arg)
              && r.error.help == Help(r.error.arg)
              && forall a: ArgName :: Rank(a) < Rank(r.error.arg) ==> PatchAccepts(b, a)
  {
    if b.name.Malformed? then Rejected(ParseError(Name, NameHelp))
    else if b.views.Malformed? then Rejected(ParseError(Views, ViewsHelp))
    else if b.likes.Malformed? then Rejected(ParseError(Likes, LikesHelp))
    else Parsed(PatchArgs(OptionOf(b.name), OptionOf(b.views), OptionOf(b.likes)))
  }

  /** One `(key, value)` entry of the parsed update arguments with a non-None value. */
  datatype Assignment = SetName(name: string) | SetViews(views: int) | SetLikes(likes: int)

  /** The parsed update arguments as their `items()`: one entry per argument, in declaration order. */
  function Items(a: PatchArgs): (items: seq<Option<Assignment>>)
    ensures |items| == 3
    ensures items[0].Some? <==> a.name.Some?
    ensures items[1].Some? <==> a.views.Some?
    ensures items[2].Some? <==> a.likes.Some?
  {
    [ if a.name.Some? then Some(SetName(a.name.value)) else None,
      if a.views.Some? then Some(SetViews(a.views.value)) else None,
      if a.likes.Some? then Some(SetLikes(a.likes.value)) else None ]
  }
}
