/** The lost-item and found-item schemas and their collections. A document is a map from
    path to string value; the schemas are strict, so a path they do not declare is
    dropped on every write. */
module ItemModel {
  import opened Common

  type Doc = map<string, string>

  /** The eight required string paths of a lost-item report. */
  const LostItemPaths: set<string> :=
    {"itemName", "description", "location", "date", "gmail", "phone", "department", "rollNumber"}

  /** The eight required string paths of a found-item report. */
  const FoundItemPaths: set<string> :=
    {"itemName", "description", "location", "date", "gmail", "phone", "department", "rollNumber"}

  /** The two schemas declare the same paths. */
  lemma SchemasAgree()
    ensures LostItemPaths == FoundItemPaths
    ensures |LostItemPaths| == 8
  {
  }

  /** The paths of `d` among `keys`, with their values: both an object built from a
      handful of destructured fields and the strict schema filter. */
  function Restrict(d: Doc, keys: set<string>): (r: Doc)
    ensures r.Keys == d.Keys * keys
    ensures forall k :: k in r ==> r[k] == d[k]
  {
    map k | k in d && k in keys :: d[k]
  }

  /** A reply carrying one document, or `null` (`None`), or an error. */
  datatype ItemReply = ItemFailed(reply: Reply) | ItemSent(code: int, item: Option<Doc>)

  /** Every required path is present and non-empty (`required` refuses `""`). */
  predicate Conforms(d: Doc, paths: set<string>)
  {
    forall p :: p in paths ==> p in d && d[p] != ""
  }

  /** `save()` of a new document: the stored document, with exactly the schema's paths,
      or `None` when a required path is missing or empty. */
  function Validate(d: Doc, paths: set<string>): (r: Option<Doc>)
    ensures r.Some? <==> Conforms(d, paths)
    ensures r.Some? ==> r.value.Keys == paths && Conforms(r.value, paths)
    ensures r.Some? ==> forall k :: k in r.value ==> r.value[k] == d[k]
  {
    if Conforms(d, paths) then Some(Restrict(d, paths)) else None
  }

  /** A handler that copies a set of fields covering the schema stores the same
      document as one that passed the whole body. */
  lemma CopiedFieldsSuffice(body: Doc, keys: set<string>, paths: set<string>)
    requires paths <= keys
    ensures Validate(Restrict(body, keys), paths) == Validate(body, paths)
  {
    var picked := Restrict(body, keys);
    assert Conforms(picked, paths) <==> Conforms(body, paths) by {
      assert forall p :: p in paths ==> (p in picked <==> p in body);
    }
    if Conforms(body, paths) {
      assert Restrict(picked, paths) == Restrict(body, paths);
    }
  }

  /** A handler that does not copy some required path can never store a document. */
  lemma UncopiedPathNeverStored(body: Doc, keys: set<string>, paths: set<string>, p: string)
    requires p in paths && p !in keys
    ensures Validate(Restrict(body, keys), paths) == None
  {
    assert p !in Restrict(body, keys);
  }

  /** What `findByIdAndUpdate(id, body)` writes: each schema path the body gives
      replaces the stored value, everything else stays. Validators do not run. */
  function Update(doc: Doc, body: Doc, paths: set<string>): (r: Doc)
    ensures r.Keys == doc.Keys + (body.Keys * paths)
    ensures forall k :: k in body && k in paths ==> r[k] == body[k]
    ensures forall k :: k in doc && (k !in body || k !in paths) ==> r[k] == doc[k]
  {
    doc + Restrict(body, paths)
  }

  /** Applying the same update twice is the same as applying it once. */
  lemma UpdateIdempotent(doc: Doc, body: Doc, paths: set<string>)
    ensures Update(Update(doc, body, paths), body, paths) == Update(doc, body, paths)
  {
  }

  /** Since validators do not run, an update can blank a required path of a
      conforming document, which then no longer conforms. */
  lemma UpdateSkipsValidation(doc: Doc, paths: set<string>, p: string)
    requires p in paths && Conforms(doc, paths)
    ensures !Conforms(Update(doc, map[p := ""], paths), paths)
  {
    assert Update(doc, map[p := ""], paths)[p] == "";
  }

  /** A collection of item reports under one schema. */
  class ItemCollection {
    const paths: set<string>
    var items: map<Id, Doc>
    var nextId: Id

    /** Identifiers lie below `nextId`, and every stored document has exactly the
        schema's paths (values may have been blanked by an update). */
    ghost predicate Valid()
      reads this
    {
      forall id :: id in items ==> id < nextId && items[id].Keys == paths
    }

    constructor (paths: set<string>)
      ensures Valid() && this.paths == paths && items == map[]
    {
      this.paths := paths;
      items := map[];
      nextId := 0;
    }

    /** `new Model(d).save()` */
    method Save(d: Doc) returns (r: Option<Id>)
      requires Valid()
      modifies this
      ensures Valid() && nextId >= old(nextId)
      ensures Validate(d, paths).None? ==> r == None && items == old(items)
      ensures Validate(d, paths).Some? ==>
                && r == Some(old(nextId)) && old(nextId) !in old(items)
                && items == old(items)[old(nextId) := Validate(d, paths).value]
    {
      var doc := Validate(d, paths);
      if doc.None? {
        return None;
      }
      items := items[nextId := doc.value];
      r := Some(nextId);
      nextId := nextId + 1;
    }

    /** `findByIdAndUpdate(id, body, { new: true })`: the updated document, or `None`
        when the id is absent. */
    method FindByIdAndUpdate(id: Id, body: Doc) returns (r: Option<Doc>)
      requires Valid()
      modifies this
      ensures Valid() && nextId == old(nextId)
      ensures id !in old(items) ==> r == None && items == old(items)
      ensures id in old(items) ==> && r == Some(Update(old(items)[id], body, paths))
                                   && items == old(items)[id := Update(old(items)[id], body, paths)]
    {
      if id !in items {
        return None;
      }
      var updated := Update(items[id], body, paths);
      items := items[id := updated];
      r := Some(updated);
    }

    /** `findByIdAndDelete(id)`: the removed document, or `None` when the id is absent. */
    method FindByIdAndDelete(id: Id) returns (r: Option<Doc>)
      requires Valid()
      modifies this
      ensures Valid() && nextId == old(nextId)
      ensures id !in old(items) ==> r == None && items == old(items)
      ensures id in old(items) ==> r == Some(old(items)[id]) && items == old(items) - {id}
    {
      if id !in items {
        return None;
      }
      r := Some(items[id]);
      items := items - {id};
    }
  }
}
