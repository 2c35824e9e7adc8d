/**
 The route table of the service: which handler answers a request, given its
 HTTP method and its path split into segments. Routes are tried in the order
 they are registered, and the catch-all `app.all("*")` answers everything no
 earlier route matched. A `:id` parameter matches one non-empty segment.
 */
module Routing {
  import opened Wrappers

  /** The name of a method other than the five the routes name. */
  type OtherMethod = m: string | m !in {"GET", "HEAD", "POST", "PUT", "DELETE"} witness "PATCH"

  /** HTTP methods. `Other` stands for every method except the five named
      ones, which its type excludes. */
  datatype Verb = Get | Head | Post | Put | Delete | Other(name: OtherMethod)

  /** The handler a request reaches; the parameterised routes carry the raw
      `:id` segment. */
  datatype Endpoint =
    | RegisterItem
    | ListItems
    | GetItem(segment: string)
    | UpdateItem(segment: string)
    | DeleteItem(segment: string)
    | GetPhoto(segment: string)
    | PutPhoto(segment: string)
    | NotAllowed

  /** Express answers a HEAD request with the GET route of the same path. */
  predicate IsGet(verb: Verb) {
    verb == Get || verb == Head
  }

  /** The route a request reaches. It reaches one only with that route's method
      (or HEAD for a GET route) and exactly that route's path; everything else
      is `NotAllowed`, which the catch-all answers with 405. */
  function Route(verb: Verb, path: seq<string>): (e: Endpoint)
    ensures e != NotAllowed ==>
      && path == PathOf(e)
      && SegmentOf(e) != Some("")
      && (verb == VerbOf(e) || (VerbOf(e) == Get && verb == Head))
  {
    if path == ["register"] then
      if verb == Post then RegisterItem else NotAllowed
    else if path == ["inventory"] then
      if IsGet(verb) then ListItems else NotAllowed
    else if |path| == 2 && path[0] == "inventory" && path[1] != "" then
      if IsGet(verb) then GetItem(path[1])
      else if verb == Put then UpdateItem(path[1])
      else if verb == Delete then DeleteItem(path[1])
      else NotAllowed
    else if |path| == 3 && path[0] == "inventory" && path[1] != "" && path[2] == "photo" then
      if IsGet(verb) then GetPhoto(path[1])
      else if verb == Put then PutPhoto(path[1])
      else NotAllowed
    else NotAllowed
  }

  /** The path pattern of each route, with its `:id` filled in. */
  function PathOf(e: Endpoint): seq<string> {
    match e
    case RegisterItem => ["register"]
    case ListItems => ["inventory"]
    case GetItem(s) => ["inventory", s]
    case UpdateItem(s) => ["inventory", s]
    case DeleteItem(s) => ["inventory", s]
    case GetPhoto(s) => ["inventory", s, "photo"]
    case PutPhoto(s) => ["inventory", s, "photo"]
    case NotAllowed => []
  }

  /** The method each route is registered for. */
  function VerbOf(e: Endpoint): Verb {
    match e
    case RegisterItem => Post
    case ListItems => Get
    case GetItem(_) => Get
    case UpdateItem(_) => Put
    case DeleteItem(_) => Delete
    case GetPhoto(_) => Get
    case PutPhoto(_) => Put
    case NotAllowed => Other("")
  }

  /** The `:id` segment a route carries, if it takes one. */
  function SegmentOf(e: Endpoint): Option<string> {
    match e
    case GetItem(s) => Some(s)
    case UpdateItem(s) => Some(s)
    case DeleteItem(s) => Some(s)
    case GetPhoto(s) => Some(s)
    case PutPhoto(s) => Some(s)
    case _ => None
  }

  /** Every route is reached by its own method and path, and a GET route by
      HEAD as well. */
  lemma RouteReachesEachEndpoint(e: Endpoint)
    requires e != NotAllowed
    requires SegmentOf(e) != Some("")
    ensures Route(VerbOf(e), PathOf(e)) == e
    ensures VerbOf(e) == Get ==> Route(Head, PathOf(e)) == e
  {
  }
}
