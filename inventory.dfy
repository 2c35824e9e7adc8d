/**
 The in-memory inventory registry: the records kept in the process-wide array
 `inventory` and, for every route handler, the response it sends and the
 inventory it leaves behind. Everything here is a pure function of the current
 inventory and the request's inputs; `Server.InventoryServer` applies these
 effects to its mutable field.
 */
module Inventory {
  import opened Wrappers

  /** A stored record `{id, inventory_name, description, photo}`; `photo` is a
      file name in the cache directory or null. */
  datatype Item = Item(id: int, name: string, description: string, photo: Option<string>)

  /** The body of a response: one record, the whole list, a file sent from the
      cache directory, the uniform error object `{ error: message }`, or the
      framework's default error page for an exception thrown in a handler. */
  datatype Body =
    | One(item: Item)
    | All(items: seq<Item>)
    | File(dir: string, name: string, contentType: string)
    | Error(message: string)
    | ErrorPage

  datatype Response = Response(status: int, body: Body)

  /** What a handler does: the response it sends and the inventory afterwards. */
  datatype Outcome = Outcome(response: Response, inventory: seq<Item>)

  const NameRequired: string := "inventory_name is required"
  const NotFound: string := "Not found"
  const NoFileUploaded: string := "No file uploaded"
  const MethodNotAllowed: string := "Method not allowed"
  const ImageJpeg: string := "image/jpeg"

  /** JavaScript truthiness of an optional text field: absent and "" are falsy. */
  predicate Truthy(v: Option<string>) {
    v.Some? && v.value != ""
  }

  /** `i.id === parseInt(req.params.id)`; an unparsable id (NaN, here None)
      equals no record's id. */
  predicate HasId(item: Item, id: Option<int>) {
    id == Some(item.id)
  }

  /** No record of `inv` carries `id`. */
  predicate Absent(inv: seq<Item>, id: Option<int>) {
    forall j :: 0 <= j < |inv| ==> !HasId(inv[j], id)
  }

  /** `k` is the index of the first record of `inv` that carries `id`. */
  predicate IsFirst(inv: seq<Item>, id: Option<int>, k: int) {
    0 <= k < |inv| && HasId(inv[k], id) &&
    forall j :: 0 <= j < k ==> !HasId(inv[j], id)
  }

  /** The invariant every handler keeps: ids are positive and every stored
      record has a non-empty `inventory_name`. */
  predicate WellFormed(inv: seq<Item>) {
    forall j :: 0 <= j < |inv| ==> inv[j].id > 0 && inv[j].name != ""
  }

  /** No two records share an id. */
  predicate UniqueIds(inv: seq<Item>) {
    forall i, j :: 0 <= i < j < |inv| ==> inv[i].id != inv[j].id
  }

  /** `inventory.findIndex(i => i.id === id)`, with -1 as None; `find` returns
      the record at this index. */
  function FindIndex(inv: seq<Item>, id: Option<int>): (r: Option<nat>)
    ensures r.Some? ==> IsFirst(inv, id, r.value)
    ensures r.None? ==> Absent(inv, id)
  {
    if inv == [] then None
    else if HasId(inv[0], id) then Some(0)
    else
      match FindIndex(inv[1..], id)
      case None => None
      case Some(k) => Some(k + 1)
  }

  /** POST /register: a falsy `inventory_name` is refused with 400; otherwise a
      record numbered `inventory.length + 1` is appended and returned with 201.
      `file` is the stored upload's file name, if a file was uploaded. */
  function Register(inv: seq<Item>, name: Option<string>, description: Option<string>,
                    file: Option<string>): (o: Outcome)
    ensures !Truthy(name) ==> o == Outcome(Response(400, Error(NameRequired)), inv)
    ensures Truthy(name) ==>
      && |o.inventory| == |inv| + 1
      && o.inventory[..|inv|] == inv
      && o.response == Response(201, One(o.inventory[|inv|]))
      && o.inventory[|inv|].id == |inv| + 1
      && o.inventory[|inv|].name == name.value
      && o.inventory[|inv|].description == (if Truthy(description) then description.value else "")
      && o.inventory[|inv|].photo == file
    ensures WellFormed(inv) ==> WellFormed(o.inventory)
  {
    if !Truthy(name) then
      Outcome(Response(400, Error(NameRequired)), inv)
    else
      var item := Item(|inv| + 1, name.value,
                       if Truthy(description) then description.value else "", file);
      Outcome(Response(201, One(item)), inv + [item])
  }

  /** GET /inventory: the whole inventory, in insertion order. */
  function ListAll(inv: seq<Item>): (r: Response)
    ensures r.status == 200
    ensures r.body.All? && |r.body.items| == |inv|
    ensures forall j :: 0 <= j < |inv| ==> r.body.items[j] == inv[j]
  {
    Response(200, All(inv))
  }

  /** GET /inventory/:id: the first record with that id, or 404. */
  function GetItem(inv: seq<Item>, id: Option<int>): (r: Response)
    ensures Absent(inv, id) ==> r == Response(404, Error(NotFound))
    ensures forall k :: IsFirst(inv, id, k) ==> r == Response(200, One(inv[k]))
  {
    match FindIndex(inv, id)
    case None => Response(404, Error(NotFound))
    case Some(k) => Response(200, One(inv[k]))
  }

  /** PUT /inventory/:id: 404 for an unknown id; otherwise a partial update of
      the first matching record, where only truthy fields overwrite. */
  function Update(inv: seq<Item>, id: Option<int>, name: Option<string>,
                  description: Option<string>): (o: Outcome)
    ensures Absent(inv, id) ==> o == Outcome(Response(404, Error(NotFound)), inv)
    ensures forall k :: IsFirst(inv, id, k) ==>
      && |o.inventory| == |inv|
      && (forall j :: 0 <= j < |inv| && j != k ==> o.inventory[j] == inv[j])
      && o.inventory[k].id == inv[k].id
      && o.inventory[k].photo == inv[k].photo
      && (Truthy(name) ==> o.inventory[k].name == name.value)
      && (!Truthy(name) ==> o.inventory[k].name == inv[k].name)
      && (Truthy(description) ==> o.inventory[k].description == description.value)
      && (!Truthy(description) ==> o.inventory[k].description == inv[k].description)
      && o.response == Response(200, One(o.inventory[k]))
    ensures WellFormed(inv) ==> WellFormed(o.inventory)
  {
    match FindIndex(inv, id)
    case None => Outcome(Response(404, Error(NotFound)), inv)
    case Some(k) =>
      var item := inv[k].(name := if Truthy(name) then name.value else inv[k].name,
                          description := if Truthy(description) then description.value
                                         else inv[k].description);
      Outcome(Response(200, One(item)), inv[k := item])
  }

  /** A POSIX path is absolute when it starts with "/". A stored photo's name
      starts with the upload's timestamp, so joining it to the cache directory
      gives an absolute path exactly when the cache directory is absolute. */
  predicate IsAbsolute(path: string) {
    |path| > 0 && path[0] == '/'
  }

  /** GET /inventory/:id/photo: the first matching record's photo, sent from the
      cache directory as image/jpeg; 404 when the id is unknown, the record has
      no photo, or no file of that name is in the cache directory
      (`cacheFiles`). Sending a file by a relative path throws, which the
      framework answers with 500 and its error page. */
  function GetPhoto(inv: seq<Item>, cacheDir: string, cacheFiles: set<string>,
                    id: Option<int>): (r: Response)
    ensures Absent(inv, id) ==> r == Response(404, Error(NotFound))
    ensures forall k :: IsFirst(inv, id, k) ==>
      if !Truthy(inv[k].photo) || inv[k].photo.value !in cacheFiles
      then r == Response(404, Error(NotFound))
      else if IsAbsolute(cacheDir)
      then r == Response(200, File(cacheDir, inv[k].photo.value, ImageJpeg))
      else r == Response(500, ErrorPage)
  {
    match FindIndex(inv, id)
    case None => Response(404, Error(NotFound))
    case Some(k) =>
      if !Truthy(inv[k].photo) then Response(404, Error(NotFound))
      else if inv[k].photo.value !in cacheFiles then Response(404, Error(NotFound))
      else if !IsAbsolute(cacheDir) then Response(500, ErrorPage)
      else Response(200, File(cacheDir, inv[k].photo.value, ImageJpeg))
  }

  /** PUT /inventory/:id/photo: 404 for an unknown id (checked first), 400 when
      no file was uploaded, otherwise only the matching record's photo becomes
      the new file name. */
  function ReplacePhoto(inv: seq<Item>, id: Option<int>, file: Option<string>): (o: Outcome)
    ensures Absent(inv, id) ==> o == Outcome(Response(404, Error(NotFound)), inv)
    ensures forall k :: IsFirst(inv, id, k) && file.None? ==>
      o == Outcome(Response(400, Error(NoFileUploaded)), inv)
    ensures forall k :: IsFirst(inv, id, k) && file.Some? ==>
      && |o.inventory| == |inv|
      && (forall j :: 0 <= j < |inv| && j != k ==> o.inventory[j] == inv[j])
      && o.inventory[k] == Item(inv[k].id, inv[k].name, inv[k].description, file)
      && o.response == Response(200, One(o.inventory[k]))
    ensures WellFormed(inv) ==> WellFormed(o.inventory)
  {
    match FindIndex(inv, id)
    case None => Outcome(Response(404, Error(NotFound)), inv)
    case Some(k) =>
      if file.None? then Outcome(Response(400, Error(NoFileUploaded)), inv)
      else
        var item := inv[k].(photo := file);
        Outcome(Response(200, One(item)), inv[k := item])
  }

  /** DELETE /inventory/:id: 404 for an unknown id; otherwise the first matching
      record is spliced out and returned, the others keeping their order. */
  function Delete(inv: seq<Item>, id: Option<int>): (o: Outcome)
    ensures Absent(inv, id) ==> o == Outcome(Response(404, Error(NotFound)), inv)
    ensures forall k :: IsFirst(inv, id, k) ==>
      && o.response == Response(200, One(inv[k]))
      && |o.inventory| == |inv| - 1
      && (forall j :: 0 <= j < k ==> o.inventory[j] == inv[j])
      && (forall j :: k <= j < |o.inventory| ==> o.inventory[j] == inv[j + 1])
    ensures WellFormed(inv) ==> WellFormed(o.inventory)
  {
    match FindIndex(inv, id)
    case None => Outcome(Response(404, Error(NotFound)), inv)
    case Some(k) => Outcome(Response(200, One(inv[k])), inv[..k] + inv[k + 1..])
  }

  // Properties relating several handlers.

  /** Record ids as the registry issues them while nothing is deleted: the
      record at position j carries id j + 1. */
  predicate Dense(inv: seq<Item>) {
    forall j :: 0 <= j < |inv| ==> inv[j].id == j + 1
  }

  /** A registration is listed after every earlier record. */
  lemma ListedAfterRegister(inv: seq<Item>, name: Option<string>, description: Option<string>,
                            file: Option<string>)
    requires Truthy(name)
    ensures ListAll(Register(inv, name, description, file).inventory)
            == Response(200, All(inv + [Register(inv, name, description, file).response.body.item]))
  {
  }

  /** A failed registration leaves the listing as it was. */
  lemma RefusedRegisterKeepsListing(inv: seq<Item>, name: Option<string>,
                                    description: Option<string>, file: Option<string>)
    requires !Truthy(name)
    ensures ListAll(Register(inv, name, description, file).inventory) == ListAll(inv)
  {
  }

  /** GET with the id a registration returned yields the registered record,
      provided no live record already carries that id. */
  lemma RegisterThenGet(inv: seq<Item>, name: Option<string>, description: Option<string>,
                        file: Option<string>)
    requires Truthy(name)
    requires Absent(inv, Some(|inv| + 1))
    ensures var o := Register(inv, name, description, file);
            GetItem(o.inventory, Some(|inv| + 1)) == Response(200, o.response.body)
  {
  }

  /** While nothing is deleted, ids are 1, 2, ... in order, so they are unique
      and the next registration's id is free. */
  lemma RegisterKeepsDense(inv: seq<Item>, name: Option<string>, description: Option<string>,
                           file: Option<string>)
    requires Dense(inv)
    ensures UniqueIds(inv)
    ensures Absent(inv, Some(|inv| + 1))
    ensures Dense(Register(inv, name, description, file).inventory)
  {
  }

  /** With unique ids, a deleted id is gone: GET and DELETE of it again
      answer 404. */
  lemma DeleteThenGet(inv: seq<Item>, id: Option<int>)
    requires UniqueIds(inv)
    requires !Absent(inv, id)
    ensures var after := Delete(inv, id).inventory;
            && GetItem(after, id) == Response(404, Error(NotFound))
            && Delete(after, id).response == Response(404, Error(NotFound))
  {
  }

  /** Delete removes exactly the matched record: the remaining records and the
      returned one together are the old inventory. */
  lemma DeleteRemovesExactlyOne(inv: seq<Item>, id: Option<int>, k: int)
    requires IsFirst(inv, id, k)
    ensures var o := Delete(inv, id);
            multiset(o.inventory) + multiset{o.response.body.item} == multiset(inv)
  {
    var f := FindIndex(inv, id).value;
    assert f == k by {
      assert !(f < k) && !(k < f);
    }
    assert Delete(inv, id).inventory == inv[..k] + inv[k + 1..];
    assert inv == inv[..k] + [inv[k]] + inv[k + 1..];
  }

  /** An update that supplies no truthy field changes nothing and answers
      exactly as GET would. */
  lemma UpdateWithNothingIsGet(inv: seq<Item>, id: Option<int>, name: Option<string>,
                               description: Option<string>)
    requires !Truthy(name) && !Truthy(description)
    ensures Update(inv, id, name, description) == Outcome(GetItem(inv, id), inv)
  {
  }

  /** An id that no record carries is answered with 404 by every handler that
      takes one, and the inventory is left as it was. */
  lemma UnknownIdChangesNothing(inv: seq<Item>, id: Option<int>, cacheDir: string,
                                cacheFiles: set<string>, name: Option<string>,
                                description: Option<string>, file: Option<string>)
    requires Absent(inv, id)
    ensures GetItem(inv, id) == Response(404, Error(NotFound))
    ensures GetPhoto(inv, cacheDir, cacheFiles, id) == Response(404, Error(NotFound))
    ensures Update(inv, id, name, description) == Outcome(Response(404, Error(NotFound)), inv)
    ensures ReplacePhoto(inv, id, file) == Outcome(Response(404, Error(NotFound)), inv)
    ensures Delete(inv, id) == Outcome(Response(404, Error(NotFound)), inv)
  {
  }

  /** Register "Drill", read it, add a description, delete it, read it again. */
  lemma DrillScenario()
    ensures var drill := Item(1, "Drill", "", None);
            var cordless := Item(1, "Drill", "Cordless", None);
            var s1 := Register([], Some("Drill"), None, None);
            var s2 := Update(s1.inventory, Some(1), None, Some("Cordless"));
            var s3 := Delete(s2.inventory, Some(1));
            && s1 == Outcome(Response(201, One(drill)), [drill])
            && GetItem(s1.inventory, Some(1)) == Response(200, One(drill))
            && s2 == Outcome(Response(200, One(cordless)), [cordless])
            && s3 == Outcome(Response(200, One(cordless)), [])
            && GetItem(s3.inventory, Some(1)) == Response(404, Error(NotFound))
  {
  }

  /** Registering with an empty name answers 400 and stores nothing. */
  lemma EmptyNameScenario(inv: seq<Item>)
    ensures Register(inv, Some(""), None, None)
            == Outcome(Response(400, Error(NameRequired)), inv)
  {
  }
}
