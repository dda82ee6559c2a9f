/** The claim-request schema: which paths a stored claim must have, the status enum
    and its default. Validation runs when a document is saved. */
module ClaimRequestModel {
  import opened Common

  /** The `enum` of the `status` path. */
  const Statuses: set<string> := {"pending", "resolved"}

  /** The `claimedBy` block: who asks for the item. */
  datatype Claimant = Claimant(
    userId: Option<string>,
    email: Option<string>,
    phone: Option<string>,
    department: Option<string>,
    rollNumber: Option<string>)

  /** The `registeredBy` block: who reported the item. */
  datatype Reporter = Reporter(
    email: Option<string>,
    phone: Option<string>,
    department: Option<string>,
    rollNumber: Option<string>)

  /** A claim-request document; a path the document was not given is `None`.
      References (`itemId`, `claimedBy.userId`) are kept as the strings the client sent. */
  datatype Claim = Claim(
    itemId: Option<string>,
    itemName: Option<string>,
    itemType: Option<string>,
    itemDescription: Option<string>,
    itemLocation: Option<string>,
    claimedBy: Option<Claimant>,
    registeredBy: Option<Reporter>,
    claimDescription: Option<string>,
    status: Option<string>)

  /** A required ObjectId path holds a value; an empty string fails the cast. */
  predicate HasReference(path: Option<string>)
  {
    Truthy(path)
  }

  /** The validators of the schema, on a document whose defaults are applied:
      `itemId` and `claimedBy.userId` are required and `status` is in the enum. */
  predicate Conforms(c: Claim)
  {
    && HasReference(c.itemId)
    && c.claimedBy.Some? && HasReference(c.claimedBy.value.userId)
    && c.status.Some? && c.status.value in Statuses
  }

  /** Document construction: the `status` default fills an absent status and nothing else. */
  function WithDefaults(c: Claim): (d: Claim)
  {
    if c.status.None? then c.(status := Some("pending")) else c
  }

  /** `save()`: the document that gets stored, or `None` when a validator rejects it. */
  function Validate(c: Claim): (r: Option<Claim>)
    ensures !HasReference(c.itemId) ==> r == None
    ensures c.claimedBy.None? || !HasReference(c.claimedBy.value.userId) ==> r == None
    ensures c.status.Some? && c.status.value !in Statuses ==> r == None
    ensures r.Some? ==> r.value.status == Some("pending") || r.value.status == Some("resolved")
    ensures r.Some? ==> r.value.status == (if c.status.None? then Some("pending") else c.status)
    ensures r.Some? ==> r.value.(status := c.status) == c
    ensures r.None? <==> !Conforms(WithDefaults(c))
  {
    var d := WithDefaults(c);
    if Conforms(d) then Some(d) else None
  }

  /** The status defaults to pending: a document without a status but with both
      references is stored as a pending claim. */
  lemma StatusDefaultsToPending(c: Claim)
    requires c.status.None?
    requires HasReference(c.itemId) && c.claimedBy.Some? && HasReference(c.claimedBy.value.userId)
    ensures Validate(c) == Some(c.(status := Some("pending")))
  {
  }

  /** The item snapshot, the claimant's contact fields, the reporter block and the
      justification are optional: whatever they hold, validation decides the same. */
  lemma OptionalPathsDoNotMatter(c: Claim, name: Option<string>, kind: Option<string>,
      description: Option<string>, location: Option<string>, contact: Claimant,
      reporter: Option<Reporter>, justification: Option<string>)
    requires c.claimedBy.Some? ==> contact.userId == c.claimedBy.value.userId
    ensures var e := c.(itemName := name, itemType := kind, itemDescription := description,
                        itemLocation := location, registeredBy := reporter,
                        claimDescription := justification,
                        claimedBy := if c.claimedBy.Some? then Some(contact) else None);
      Validate(e).Some? <==> Validate(c).Some?
  {
  }
}
