/**
 Record numbering. The registry numbers a new record `inventory.length + 1`,
 which after a deletion can hand out an id a live record still carries; lookups
 then reach only the older record. `LengthIdReusesLiveId` exhibits this on
 `Inventory.Register`. `NumberedStore` is the numbering the registry evidently
 intends: a counter of issued ids that never goes back, under which ids stay
 unique across any run of requests and a registered record is always
 reachable by its id.
 */
module Numbering {
  import opened Wrappers
  import opened Inventory
  import Routing
  import Server

  /** Register "Saw" (id 1) and "Drill" (id 2), delete id 1, register
      "Hammer": it is numbered 2 as well, and GET /inventory/2 answers with
      "Drill", not the record just registered. */
  lemma LengthIdReusesLiveId()
    ensures var s1 := Register([], Some("Saw"), None, None).inventory;
            var s2 := Register(s1, Some("Drill"), None, None).inventory;
            var s3 := Delete(s2, Some(1)).inventory;
            var s4 := Register(s3, Some("Hammer"), None, None);
            && s3 == [Item(2, "Drill", "", None)]
            && s4.response == Response(201, One(Item(2, "Hammer", "", None)))
            && !UniqueIds(s4.inventory)
            && GetItem(s4.inventory, Some(2)) == Response(200, One(Item(2, "Drill", "", None)))
  {
  }

  /** The exact condition of the defect: from records with distinct ids, a
      successful register keeps the ids distinct if and only if no record
      still carries `inventory.length + 1`. */
  lemma RegisterKeepsIdsUniqueIff(inv: seq<Item>, name: Option<string>,
                                  description: Option<string>, file: Option<string>)
    requires UniqueIds(inv)
    requires Truthy(name)
    ensures UniqueIds(Register(inv, name, description, file).inventory)
            <==> Absent(inv, Some(|inv| + 1))
  {
  }

  /** The records together with the largest id issued so far. */
  datatype NumberedStore = NumberedStore(items: seq<Item>, lastId: nat)

  datatype NumberedOutcome = NumberedOutcome(response: Response, store: NumberedStore)

  /** Ids are unique, positive and none exceeds the last one issued. */
  predicate Issued(s: NumberedStore) {
    && UniqueIds(s.items)
    && forall j :: 0 <= j < |s.items| ==> 0 < s.items[j].id <= s.lastId
  }

  /** POST /register numbering the record after the last id issued. */
  function RegisterNumbered(s: NumberedStore, name: Option<string>,
                            description: Option<string>, file: Option<string>): (o: NumberedOutcome)
    ensures !Truthy(name) ==> o == NumberedOutcome(Response(400, Error(NameRequired)), s)
    ensures Truthy(name) ==>
      && o.store.lastId == s.lastId + 1
      && o.store.items == s.items + [Item(s.lastId + 1, name.value,
                                          if Truthy(description) then description.value else "", file)]
      && o.response == Response(201, One(o.store.items[|s.items|]))
    ensures Issued(s) ==> Issued(o.store)
  {
    if !Truthy(name) then
      NumberedOutcome(Response(400, Error(NameRequired)), s)
    else
      var item := Item(s.lastId + 1, name.value,
                       if Truthy(description) then description.value else "", file);
      NumberedOutcome(Response(201, One(item)), NumberedStore(s.items + [item], s.lastId + 1))
  }

  /** DELETE /inventory/:id on a numbered store; the counter is kept. */
  function DeleteNumbered(s: NumberedStore, id: Option<int>): (o: NumberedOutcome)
    ensures o.response == Delete(s.items, id).response
    ensures o.store.items == Delete(s.items, id).inventory
    ensures o.store.lastId == s.lastId
    ensures Issued(s) ==> Issued(o.store)
  {
    var d := Delete(s.items, id);
    var o := NumberedOutcome(d.response, NumberedStore(d.inventory, s.lastId));
    assert Issued(s) ==> Issued(o.store) by {
      if Issued(s) && d.inventory != s.items {
        var k := FindIndex(s.items, id).value;
        forall i, j | 0 <= i < j < |d.inventory|
          ensures d.inventory[i].id != d.inventory[j].id
        {
          var i' := if i < k then i else i + 1;
          var j' := if j < k then j else j + 1;
          assert d.inventory[i] == s.items[i'] && d.inventory[j] == s.items[j'];
        }
      }
    }
    o
  }

  /** PUT /inventory/:id on a numbered store: the records' ids and the counter
      are kept. */
  function UpdateNumbered(s: NumberedStore, id: Option<int>, name: Option<string>,
                          description: Option<string>): (o: NumberedOutcome)
    ensures o.response == Update(s.items, id, name, description).response
    ensures o.store.items == Update(s.items, id, name, description).inventory
    ensures o.store.lastId == s.lastId
    ensures Issued(s) ==> Issued(o.store)
  {
    var u := Update(s.items, id, name, description);
    NumberedOutcome(u.response, NumberedStore(u.inventory, s.lastId))
  }

  /** PUT /inventory/:id/photo on a numbered store: the records' ids and the
      counter are kept. */
  function ReplacePhotoNumbered(s: NumberedStore, id: Option<int>, file: Option<string>)
    : (o: NumberedOutcome)
    ensures o.response == ReplacePhoto(s.items, id, file).response
    ensures o.store.items == ReplacePhoto(s.items, id, file).inventory
    ensures o.store.lastId == s.lastId
    ensures Issued(s) ==> Issued(o.store)
  {
    var u := ReplacePhoto(s.items, id, file);
    NumberedOutcome(u.response, NumberedStore(u.inventory, s.lastId))
  }

  /** One request against the numbered store: register and the three handlers
      that change records use the numbered versions; the read-only routes and
      the 405 fallback answer as the registry does. */
  function ServeNumbered(s: NumberedStore, cacheDir: string, cacheFiles: set<string>,
                         parseId: string -> Option<int>, req: Server.Request): (o: NumberedOutcome)
    ensures o.store.lastId >= s.lastId
    ensures Issued(s) ==> Issued(o.store)
  {
    match Routing.Route(req.verb, req.path)
    case RegisterItem => RegisterNumbered(s, req.name, req.description, req.file)
    case UpdateItem(seg) => UpdateNumbered(s, parseId(seg), req.name, req.description)
    case DeleteItem(seg) => DeleteNumbered(s, parseId(seg))
    case PutPhoto(seg) => ReplacePhotoNumbered(s, parseId(seg), req.file)
    case _ =>
      NumberedOutcome(Server.Serve(s.items, cacheDir, cacheFiles, parseId, req).response, s)
  }

  /** The numbered store after a run of requests served one after another. */
  function ServeAllNumbered(s: NumberedStore, cacheDir: string, cacheFiles: set<string>,
                            parseId: string -> Option<int>, reqs: seq<Server.Request>)
    : NumberedStore
    decreases |reqs|
  {
    if reqs == [] then s
    else ServeAllNumbered(ServeNumbered(s, cacheDir, cacheFiles, parseId, reqs[0]).store,
                          cacheDir, cacheFiles, parseId, reqs[1..])
  }

  /** With the counter, any run of requests, deletes included, keeps ids unique
      and never lowers the counter. */
  lemma {:induction false} RunNumberedKeepsIdsUnique(s: NumberedStore, cacheDir: string,
                                                     cacheFiles: set<string>,
                                                     parseId: string -> Option<int>,
                                                     reqs: seq<Server.Request>)
    requires Issued(s)
    ensures Issued(ServeAllNumbered(s, cacheDir, cacheFiles, parseId, reqs))
    ensures ServeAllNumbered(s, cacheDir, cacheFiles, parseId, reqs).lastId >= s.lastId
    decreases |reqs|
  {
    if reqs != [] {
      RunNumberedKeepsIdsUnique(ServeNumbered(s, cacheDir, cacheFiles, parseId, reqs[0]).store,
                                cacheDir, cacheFiles, parseId, reqs[1..]);
    }
  }

  /** With the counter, a registered record is always reachable by the id it
      was given, and that id is larger than every id issued before. */
  lemma RegisterNumberedThenGet(s: NumberedStore, name: Option<string>,
                                description: Option<string>, file: Option<string>)
    requires Issued(s)
    requires Truthy(name)
    ensures var o := RegisterNumbered(s, name, description, file);
            && o.response.body.item.id > s.lastId
            && GetItem(o.store.items, Some(s.lastId + 1)) == Response(200, o.response.body)
  {
  }

  /** With the counter, the sequence of `LengthIdReusesLiveId` gives "Hammer"
      a fresh id and GET reaches it. */
  lemma NumberedScenario()
    ensures var s1 := RegisterNumbered(NumberedStore([], 0), Some("Saw"), None, None).store;
            var s2 := RegisterNumbered(s1, Some("Drill"), None, None).store;
            var s3 := DeleteNumbered(s2, Some(1)).store;
            var s4 := RegisterNumbered(s3, Some("Hammer"), None, None);
            && s4.response == Response(201, One(Item(3, "Hammer", "", None)))
            && UniqueIds(s4.store.items)
            && GetItem(s4.store.items, Some(3)) == Response(200, One(Item(3, "Hammer", "", None)))
  {
    var s0 := NumberedStore([], 0);
    var s1 := RegisterNumbered(s0, Some("Saw"), None, None).store;
    var s2 := RegisterNumbered(s1, Some("Drill"), None, None).store;
    var s3 := DeleteNumbered(s2, Some(1)).store;
    assert Issued(s0);
    RegisterNumberedThenGet(s3, Some("Hammer"), None, None);
  }
}
