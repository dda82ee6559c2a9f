/** The lost-item controller: list, create, get, update and delete, each answering 404
    when the id is absent. */
module LostItemController {
  import opened Common
  import opened ItemModel

  const CreateFailed := ErrorReply(500, "Failed to create lost item")
  const NotFound := ErrorReply(404, "Lost item not found")
  const Deleted := MessageReply(200, "Lost item deleted successfully")

  /** The fields `createLostItem` takes from the body: the schema's eight. */
  const CreateKeys: set<string> :=
    {"itemName", "description", "location", "date", "gmail", "phone", "department", "rollNumber"}

  /** GET all: every stored report (the sort on `createdAt`, a path the schema does not
      have, is not modelled). */
  method GetLostItems(c: ItemCollection) returns (items: map<Id, Doc>)
    ensures items == c.items
  {
    items := c.items;
  }

  /** `createLostItem`: the eight fields are copied and saved; a report the schema
      refuses answers 500 (never 400) and stores nothing. */
  method CreateLostItem(c: ItemCollection, body: Doc) returns (reply: ItemReply)
    requires c.Valid() && c.paths == LostItemPaths
    modifies c
    ensures c.Valid()
    ensures !Conforms(body, LostItemPaths) ==> reply == ItemFailed(CreateFailed) && c.items == old(c.items)
    ensures Conforms(body, LostItemPaths) ==>
              && old(c.nextId) !in old(c.items)
              && reply == ItemSent(201, Some(Restrict(body, LostItemPaths)))
              && c.items == old(c.items)[old(c.nextId) := Restrict(body, LostItemPaths)]
  {
    CopiedFieldsSuffice(body, CreateKeys, LostItemPaths);
    var fields := Restrict(body, CreateKeys);
    var saved := c.Save(fields);
    match saved {
      case None => reply := ItemFailed(CreateFailed);
      case Some(id) => reply := ItemSent(201, Some(c.items[id]));
    }
  }

  /** `getLostItemById` */
  method GetLostItem(c: ItemCollection, id: Id) returns (reply: ItemReply)
    ensures id !in c.items ==> reply == ItemFailed(NotFound)
    ensures id in c.items ==> reply == ItemSent(200, Some(c.items[id]))
  {
    if id !in c.items {
      return ItemFailed(NotFound);
    }
    reply := ItemSent(200, Some(c.items[id]));
  }

  /** `updateLostItem`: 404 when absent, otherwise the given schema paths are
      overwritten and the updated report is sent. */
  method UpdateLostItem(c: ItemCollection, id: Id, body: Doc) returns (reply: ItemReply)
    requires c.Valid()
    modifies c
    ensures c.Valid()
    ensures id !in old(c.items) ==> reply == ItemFailed(NotFound) && c.items == old(c.items)
    ensures id in old(c.items) ==>
              && reply == ItemSent(200, Some(Update(old(c.items)[id], body, c.paths)))
              && c.items == old(c.items)[id := Update(old(c.items)[id], body, c.paths)]
  {
    var updated := c.FindByIdAndUpdate(id, body);
    if updated.None? {
      return ItemFailed(NotFound);
    }
    reply := ItemSent(200, updated);
  }

  /** `deleteLostItem`: 404 when absent, otherwise exactly that report is removed. */
  method DeleteLostItem(c: ItemCollection, id: Id) returns (reply: Reply)
    requires c.Valid()
    modifies c
    ensures c.Valid()
    ensures id !in old(c.items) ==> reply == NotFound && c.items == old(c.items)
    ensures id in old(c.items) ==> reply == Deleted && c.items == old(c.items) - {id}
  {
    var deleted := c.FindByIdAndDelete(id);
    if deleted.None? {
      return NotFound;
    }
    reply := Deleted;
  }
}
