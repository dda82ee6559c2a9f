/** The found-item controller: like the lost-item one, except that create copies a
    different set of fields, and update and delete answer 200 whether or not the id
    exists. */
module FoundItemController {
  import opened Common
  import opened ItemModel

  const CreateFailed := ErrorReply(500, "Failed to create found item")
  const NotFound := ErrorReply(404, "Found item not found")
  const Deleted := MessageReply(200, "Found item deleted successfully")

  /** The fields `createFoundItem` takes from the body. */
  const CreateKeys: set<string> := {"itemName", "description", "location", "dateFound", "user"}

  /** GET all: every stored report (the `user` join is not modelled). */
  method GetFoundItems(c: ItemCollection) returns (items: map<Id, Doc>)
    ensures items == c.items
  {
    items := c.items;
  }

  /** The create handler, for the fields it copies: save, then 201 with the stored
      report, or 500. */
  method CreateWith(c: ItemCollection, fields: Doc) returns (reply: ItemReply)
    requires c.Valid()
    modifies c
    ensures c.Valid()
    ensures Validate(fields, c.paths).None? ==> reply == ItemFailed(CreateFailed) && c.items == old(c.items)
    ensures Validate(fields, c.paths).Some? ==>
              && old(c.nextId) !in old(c.items)
              && reply == ItemSent(201, Validate(fields, c.paths))
              && c.items == old(c.items)[old(c.nextId) := Validate(fields, c.paths).value]
  {
    var saved := c.Save(fields);
    match saved {
      case None => reply := ItemFailed(CreateFailed);
      case Some(id) => reply := ItemSent(201, Some(c.items[id]));
    }
  }

  /** `createFoundItem` as written: `dateFound` and `user` are not schema paths, and
      `date`, `gmail`, `phone`, `department` and `rollNumber` are never copied, so every
      create answers 500 and nothing is ever stored. */
  method CreateFoundItem(c: ItemCollection, body: Doc) returns (reply: ItemReply)
    requires c.Valid() && c.paths == FoundItemPaths
    modifies c
    ensures c.Valid()
    ensures reply == ItemFailed(CreateFailed) && c.items == old(c.items)
  {
    UncopiedPathNeverStored(body, CreateKeys, FoundItemPaths, "date");
    reply := CreateWith(c, Restrict(body, CreateKeys));
  }

  /** `createFoundItem` copying the schema's eight fields, as the lost-item controller
      does: a conforming report is stored and sent back with 201. */
  method CreateFoundItemCorrected(c: ItemCollection, body: Doc) returns (reply: ItemReply)
    requires c.Valid() && c.paths == FoundItemPaths
    modifies c
    ensures c.Valid()
    ensures !Conforms(body, FoundItemPaths) ==> reply == ItemFailed(CreateFailed) && c.items == old(c.items)
    ensures Conforms(body, FoundItemPaths) ==>
              && old(c.nextId) !in old(c.items)
              && reply == ItemSent(201, Some(Restrict(body, FoundItemPaths)))
              && c.items == old(c.items)[old(c.nextId) := Restrict(body, FoundItemPaths)]
  {
    CopiedFieldsSuffice(body, FoundItemPaths, FoundItemPaths);
    reply := CreateWith(c, Restrict(body, FoundItemPaths));
  }

  /** `getFoundItemById` */
  method GetFoundItem(c: ItemCollection, id: Id) returns (reply: ItemReply)
    ensures id !in c.items ==> reply == ItemFailed(NotFound)
    ensures id in c.items ==> reply == ItemSent(200, Some(c.items[id]))
  {
    if id !in c.items {
      return ItemFailed(NotFound);
    }
    reply := ItemSent(200, Some(c.items[id]));
  }

  /** `updateFoundItem`: 200 in every case; the body is `null` when the id is absent. */
  method UpdateFoundItem(c: ItemCollection, id: Id, body: Doc) returns (reply: ItemReply)
    requires c.Valid()
    modifies c
    ensures c.Valid()
    ensures reply.ItemSent? && reply.code == 200
    ensures id !in old(c.items) ==> reply.item == None && c.items == old(c.items)
    ensures id in old(c.items) ==>
              && reply.item == Some(Update(old(c.items)[id], body, c.paths))
              && c.items == old(c.items)[id := Update(old(c.items)[id], body, c.paths)]
  {
    var updated := c.FindByIdAndUpdate(id, body);
    reply := ItemSent(200, updated);
  }

  /** `deleteFoundItem`: 200 in every case; a present report is removed, and only it. */
  method DeleteFoundItem(c: ItemCollection, id: Id) returns (reply: Reply)
    requires c.Valid()
    modifies c
    ensures c.Valid()
    ensures reply == Deleted
    ensures c.items == old(c.items) - {id}
  {
    var _ := c.FindByIdAndDelete(id);
    reply := Deleted;
  }
}
