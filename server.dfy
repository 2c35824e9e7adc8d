/**
 The running service: the one mutable inventory the handlers share, and the
 dispatch of a request through the route table to its handler. `Serve` is the
 effect of one request as a function; `InventoryServer` keeps the inventory in
 a field that its handler methods update in place, each proved to have the
 effect `Inventory` specifies.
 */
module Server {
  import opened Wrappers
  import opened Inventory
  import Routing

  /** A request as the handlers see it: method, path segments, the text fields
      `inventory_name` and `description` of the parsed body, and the stored file
      name of an uploaded `photo`. */
  datatype Request = Request(verb: Routing.Verb, path: seq<string>, name: Option<string>,
                             description: Option<string>, file: Option<string>)

  /** The effect of one request. `parseId` stands for JavaScript's `parseInt`
      on the `:id` segment (None for NaN); `cacheFiles` is the set of file names
      present in the cache directory `cacheDir`. */
  function Serve(inv: seq<Item>, cacheDir: string, cacheFiles: set<string>,
                 parseId: string -> Option<int>, req: Request): (o: Outcome)
    ensures Routing.Route(req.verb, req.path) == Routing.NotAllowed ==>
      o == Outcome(Response(405, Error(MethodNotAllowed)), inv)
    ensures Routing.IsGet(req.verb) ==> o.inventory == inv
    ensures o.response.status in {200, 201, 400, 404, 405, 500}
    ensures o.response.status == 500 ==> !IsAbsolute(cacheDir) && o.response.body == ErrorPage
    ensures o.inventory != inv ==> Routing.Route(req.verb, req.path).RegisterItem?
                                   || Routing.Route(req.verb, req.path).UpdateItem?
                                   || Routing.Route(req.verb, req.path).DeleteItem?
                                   || Routing.Route(req.verb, req.path).PutPhoto?
    ensures !Routing.Route(req.verb, req.path).RegisterItem?
            && !Routing.Route(req.verb, req.path).DeleteItem? ==>
              && |o.inventory| == |inv|
              && forall j :: 0 <= j < |inv| ==> o.inventory[j].id == inv[j].id
    ensures WellFormed(inv) ==> WellFormed(o.inventory)
  {
    match Routing.Route(req.verb, req.path)
    case RegisterItem => Register(inv, req.name, req.description, req.file)
    case ListItems => Outcome(ListAll(inv), inv)
    case GetItem(s) => Outcome(GetItem(inv, parseId(s)), inv)
    case UpdateItem(s) => Update(inv, parseId(s), req.name, req.description)
    case DeleteItem(s) => Delete(inv, parseId(s))
    case GetPhoto(s) => Outcome(GetPhoto(inv, cacheDir, cacheFiles, parseId(s)), inv)
    case PutPhoto(s) => ReplacePhoto(inv, parseId(s), req.file)
    case NotAllowed => Outcome(Response(405, Error(MethodNotAllowed)), inv)
  }

  /** The inventory after a run of requests served one after another, as Node
      runs the handlers: each to completion before the next starts. */
  function ServeAll(inv: seq<Item>, cacheDir: string, cacheFiles: set<string>,
                    parseId: string -> Option<int>, reqs: seq<Request>): seq<Item>
    decreases |reqs|
  {
    if reqs == [] then inv
    else ServeAll(Serve(inv, cacheDir, cacheFiles, parseId, reqs[0]).inventory,
                  cacheDir, cacheFiles, parseId, reqs[1..])
  }

  /** No request of any run can store a record with an empty name or a
      non-positive id. */
  lemma {:induction false} RunKeepsWellFormed(inv: seq<Item>, cacheDir: string,
                                              cacheFiles: set<string>,
                                              parseId: string -> Option<int>, reqs: seq<Request>)
    requires WellFormed(inv)
    ensures WellFormed(ServeAll(inv, cacheDir, cacheFiles, parseId, reqs))
    decreases |reqs|
  {
    if reqs != [] {
      RunKeepsWellFormed(Serve(inv, cacheDir, cacheFiles, parseId, reqs[0]).inventory,
                         cacheDir, cacheFiles, parseId, reqs[1..]);
    }
  }

  /** The request is routed to DELETE /inventory/:id. */
  predicate IsDelete(req: Request) {
    Routing.Route(req.verb, req.path).DeleteItem?
  }

  /** A request that is not a delete keeps record j numbered j + 1. */
  lemma ServeKeepsDense(inv: seq<Item>, cacheDir: string, cacheFiles: set<string>,
                        parseId: string -> Option<int>, req: Request)
    requires Dense(inv)
    requires !IsDelete(req)
    ensures Dense(Serve(inv, cacheDir, cacheFiles, parseId, req).inventory)
  {
  }

  /** As long as nothing is deleted, a run keeps the records numbered 1, 2, ...
      (as the empty inventory is), so no two share an id. */
  lemma {:induction false} RunWithoutDeleteKeepsIdsUnique(inv: seq<Item>, cacheDir: string,
                                                          cacheFiles: set<string>,
                                                          parseId: string -> Option<int>,
                                                          reqs: seq<Request>)
    requires Dense(inv)
    requires forall i :: 0 <= i < |reqs| ==> !IsDelete(reqs[i])
    ensures Dense(ServeAll(inv, cacheDir, cacheFiles, parseId, reqs))
    ensures UniqueIds(ServeAll(inv, cacheDir, cacheFiles, parseId, reqs))
    decreases |reqs|
  {
    if reqs != [] {
      ServeKeepsDense(inv, cacheDir, cacheFiles, parseId, reqs[0]);
      RunWithoutDeleteKeepsIdsUnique(Serve(inv, cacheDir, cacheFiles, parseId, reqs[0]).inventory,
                                     cacheDir, cacheFiles, parseId, reqs[1..]);
    }
  }

  class InventoryServer {
    /** The process-wide array of records. */
    var inventory: seq<Item>
    /** The cache directory photos are stored in and served from. */
    const cacheDir: string

    ghost predicate Valid()
      reads this
    {
      WellFormed(inventory)
    }

    /** The service starts with an empty inventory. */
    constructor (cacheDir: string)
      ensures Valid()
      ensures inventory == [] && this.cacheDir == cacheDir
    {
      inventory := [];
      this.cacheDir := cacheDir;
    }

    /** POST /register: pushes a new record onto the inventory. */
    method Register(name: Option<string>, description: Option<string>, file: Option<string>)
      returns (r: Response)
      requires Valid()
      modifies this
      ensures Valid()
      ensures Outcome(r, inventory) == Inventory.Register(old(inventory), name, description, file)
    {
      if !Truthy(name) {
        return Response(400, Error(NameRequired));
      }
      var item := Item(|inventory| + 1, name.value,
                       if Truthy(description) then description.value else "", file);
      inventory := inventory + [item];
      r := Response(201, One(item));
    }

    /** PUT /inventory/:id: overwrites the truthy fields of the found record. */
    method Update(id: Option<int>, name: Option<string>, description: Option<string>)
      returns (r: Response)
      requires Valid()
      modifies this
      ensures Valid()
      ensures Outcome(r, inventory) == Inventory.Update(old(inventory), id, name, description)
    {
      var found := FindIndex(inventory, id);
      if found.None? {
        return Response(404, Error(NotFound));
      }
      var k := found.value;
      var item := inventory[k];
      if Truthy(name) {
        item := item.(name := name.value);
      }
      if Truthy(description) {
        item := item.(description := description.value);
      }
      inventory := inventory[k := item];
      r := Response(200, One(item));
    }

    /** PUT /inventory/:id/photo: points the found record at the new file. */
    method ReplacePhoto(id: Option<int>, file: Option<string>) returns (r: Response)
      requires Valid()
      modifies this
      ensures Valid()
      ensures Outcome(r, inventory) == Inventory.ReplacePhoto(old(inventory), id, file)
    {
      var found := FindIndex(inventory, id);
      if found.None? {
        return Response(404, Error(NotFound));
      }
      if file.None? {
        return Response(400, Error(NoFileUploaded));
      }
      var k := found.value;
      var item := inventory[k].(photo := file);
      inventory := inventory[k := item];
      r := Response(200, One(item));
    }

    /** DELETE /inventory/:id: splices the found record out and returns it. */
    method Delete(id: Option<int>) returns (r: Response)
      requires Valid()
      modifies this
      ensures Valid()
      ensures Outcome(r, inventory) == Inventory.Delete(old(inventory), id)
    {
      var index := FindIndex(inventory, id);
      if index.None? {
        return Response(404, Error(NotFound));
      }
      var k := index.value;
      var deleted := inventory[k];
      inventory := inventory[..k] + inventory[k + 1..];
      r := Response(200, One(deleted));
    }

    /** Routes one request to its handler; the read-only routes answer from
        the current inventory without changing it. */
    method Handle(req: Request, parseId: string -> Option<int>, cacheFiles: set<string>)
      returns (r: Response)
      requires Valid()
      modifies this
      ensures Valid()
      ensures Outcome(r, inventory) == Serve(old(inventory), cacheDir, cacheFiles, parseId, req)
    {
      match Routing.Route(req.verb, req.path)
      case RegisterItem =>
        r := Register(req.name, req.description, req.file);
      case ListItems =>
        r := ListAll(inventory);
      case GetItem(s) =>
        r := Inventory.GetItem(inventory, parseId(s));
      case UpdateItem(s) =>
        r := Update(parseId(s), req.name, req.description);
      case DeleteItem(s) =>
        r := Delete(parseId(s));
      case GetPhoto(s) =>
        r := Inventory.GetPhoto(inventory, cacheDir, cacheFiles, parseId(s));
      case PutPhoto(s) =>
        r := ReplacePhoto(parseId(s), req.file);
      case NotAllowed =>
        r := Response(405, Error(MethodNotAllowed));
    }
  }
}
