/** The claim workflow: submission, the three listings, resolution and rejection,
    over the claim-request collection. */
module ClaimRoutes {
  import opened Common
  import opened ClaimRequestModel

  const Submitted := MessageReply(200, "Claim request submitted successfully!")
  const SubmitFailed := MessageReply(500, "Failed to submit claim")
  const ClaimNotFound := MessageReply(404, "Claim not found")
  const ClaimResolved := MessageReply(200, "Claim successfully resolved")
  const ClaimDeleted := MessageReply(200, "Claim request deleted successfully")

  /** The document the submit handler builds from the request body: the body's nine
      paths, with `status || 'pending'` as the status. */
  function ClaimFromBody(body: Claim): (c: Claim)
    ensures Truthy(body.status) ==> c.status == body.status
    ensures !Truthy(body.status) ==> c.status == Some("pending")
    ensures c.(status := body.status) == body
  {
    body.(status := Some(OrElse(body.status, "pending")))
  }

  /** The query `find({ status })`. */
  function WithStatus(claims: map<Id, Claim>, status: string): (listed: map<Id, Claim>)
    ensures forall id :: id in listed <==> id in claims && claims[id].status == Some(status)
    ensures forall id :: id in listed ==> listed[id] == claims[id]
  {
    map id | id in claims && claims[id].status == Some(status) :: claims[id]
  }

  /** Every stored claim passes the schema. */
  ghost predicate AllConform(claims: map<Id, Claim>)
  {
    forall id :: id in claims ==> Conforms(claims[id])
  }

  /** The effect of resolving claim `id`: `claim.status = 'resolved'`. */
  function MarkResolved(claims: map<Id, Claim>, id: Id): (r: map<Id, Claim>)
    requires id in claims
    ensures r.Keys == claims.Keys
    ensures r[id].status == Some("resolved") && r[id].(status := claims[id].status) == claims[id]
    ensures forall k :: k in claims && k != id ==> r[k] == claims[k]
  {
    claims[id := claims[id].(status := Some("resolved"))]
  }

  /** Resolution changes the status of that one claim and nothing else. */
  lemma MarkResolvedChangesOnlyStatus(claims: map<Id, Claim>, id: Id)
    requires id in claims
    ensures var after := MarkResolved(claims, id);
      && after.Keys == claims.Keys
      && after[id].status == Some("resolved")
      && after[id].(status := claims[id].status) == claims[id]
      && forall other :: other in claims && other != id ==> after[other] == claims[other]
  {
  }

  /** Resolving a resolved claim changes nothing: there is no guard, and no need of one. */
  lemma MarkResolvedIdempotent(claims: map<Id, Claim>, id: Id)
    requires id in claims
    ensures MarkResolved(MarkResolved(claims, id), id) == MarkResolved(claims, id)
  {
  }

  /** A stored claim's status is one of the two enum values, so every claim appears in
      exactly one of the pending and resolved listings. */
  lemma ListingsPartition(claims: map<Id, Claim>)
    requires AllConform(claims)
    ensures WithStatus(claims, "pending").Keys + WithStatus(claims, "resolved").Keys == claims.Keys
    ensures WithStatus(claims, "pending").Keys !! WithStatus(claims, "resolved").Keys
  {
    forall id | id in claims
      ensures id in WithStatus(claims, "pending") || id in WithStatus(claims, "resolved")
    {
      assert Conforms(claims[id]);
    }
  }

  /** After a resolution the claim is listed as resolved and no longer as pending, and
      every other claim stays in the listings it was in. */
  lemma ResolveMovesBetweenListings(claims: map<Id, Claim>, id: Id)
    requires id in claims
    ensures var after := MarkResolved(claims, id);
      && id in WithStatus(after, "resolved") && id !in WithStatus(after, "pending")
      && (forall s :: WithStatus(after, s) - {id} == WithStatus(claims, s) - {id})
  {
    var after := MarkResolved(claims, id);
    forall s ensures WithStatus(after, s) - {id} == WithStatus(claims, s) - {id} {
      assert forall other :: other in claims && other != id ==> after[other] == claims[other];
    }
  }

  /** Resolution keeps every stored claim within the schema. */
  lemma MarkResolvedConforms(claims: map<Id, Claim>, id: Id)
    requires id in claims && AllConform(claims)
    ensures AllConform(MarkResolved(claims, id))
  {
    assert Conforms(claims[id]);
  }

  /** The claim-request collection: a table from id to claim document. */
  class ClaimLedger {
    var claims: map<Id, Claim>
    var nextId: Id

    /** Identifiers handed out so far lie below `nextId`, and every stored claim
        passed validation. */
    ghost predicate Valid()
      reads this
    {
      && (forall id :: id in claims ==> id < nextId)
      && AllConform(claims)
    }

    constructor ()
      ensures Valid() && claims == map[]
    {
      claims := map[];
      nextId := 0;
    }

    /** POST `/`: store a new claim built from the body. There is no duplicate lookup. */
    method Submit(body: Claim) returns (reply: Reply)
      requires Valid()
      modifies this
      ensures Valid()
      ensures var doc := Validate(ClaimFromBody(body));
        && (doc.Some? ==> && reply == Submitted
                          && old(nextId) !in old(claims)
                          && claims == old(claims)[old(nextId) := doc.value])
        && (doc.None? ==> reply == SubmitFailed && claims == old(claims))
      ensures nextId >= old(nextId)
    {
      var doc := Validate(ClaimFromBody(body));
      if doc.None? {
        return SubmitFailed;
      }
      claims := claims[nextId := doc.value];
      nextId := nextId + 1;
      reply := Submitted;
    }

    /** GET `/`: every claim (the `itemName` join is not modelled). */
    method ListAll() returns (listed: map<Id, Claim>)
      ensures listed == claims
    {
      listed := claims;
    }

    /** GET `/pending` */
    method ListPending() returns (listed: map<Id, Claim>)
      ensures listed == WithStatus(claims, "pending")
    {
      listed := WithStatus(claims, "pending");
    }

    /** GET `/resolved` */
    method ListResolved() returns (listed: map<Id, Claim>)
      ensures listed == WithStatus(claims, "resolved")
    {
      listed := WithStatus(claims, "resolved");
    }

    /** PATCH `/resolve/:claimId`: 404 when the claim is absent, otherwise the status
        becomes resolved, whatever it was. */
    method Resolve(id: Id) returns (reply: Reply)
      requires Valid()
      modifies this
      ensures Valid() && nextId == old(nextId)
      ensures id !in old(claims) ==> reply == ClaimNotFound && claims == old(claims)
      ensures id in old(claims) ==> reply == ClaimResolved && claims == MarkResolved(old(claims), id)
    {
      if id !in claims {
        return ClaimNotFound;
      }
      MarkResolvedConforms(claims, id);
      claims := claims[id := claims[id].(status := Some("resolved"))];
      reply := ClaimResolved;
    }

    /** DELETE `/:claimId`: rejection removes the claim for good. */
    method Reject(id: Id) returns (reply: Reply)
      requires Valid()
      modifies this
      ensures Valid() && nextId == old(nextId)
      ensures id !in old(claims) ==> reply == ClaimNotFound && claims == old(claims)
      ensures id in old(claims) ==> reply == ClaimDeleted && claims == old(claims) - {id}
    {
      if id !in claims {
        return ClaimNotFound;
      }
      claims := claims - {id};
      reply := ClaimDeleted;
    }
  }

  /** The same claim submitted twice is stored twice, under two identifiers. */
  method SubmitTwice(ledger: ClaimLedger, body: Claim) returns (first: Reply, second: Reply)
    requires ledger.Valid()
    requires Validate(ClaimFromBody(body)).Some?
    modifies ledger
    ensures ledger.Valid()
    ensures first == Submitted && second == Submitted
    ensures exists a: Id, b: Id :: (
      && a != b && a !in old(ledger.claims) && b !in old(ledger.claims)
      && a in ledger.claims && b in ledger.claims
      && ledger.claims == old(ledger.claims)[a := ledger.claims[a]][b := ledger.claims[b]]
      && ledger.claims[a] == Validate(ClaimFromBody(body)).value
      && ledger.claims[b] == Validate(ClaimFromBody(body)).value)
  {
    var a := ledger.nextId;
    first := ledger.Submit(body);
    var b := ledger.nextId;
    second := ledger.Submit(body);
    assert a != b;
  }

  /** A rejected claim cannot be resolved afterwards. */
  method RejectThenResolve(ledger: ClaimLedger, id: Id) returns (rejected: Reply, resolved: Reply)
    requires ledger.Valid() && id in ledger.claims
    modifies ledger
    ensures ledger.Valid()
    ensures rejected == ClaimDeleted && resolved == ClaimNotFound
    ensures ledger.claims == old(ledger.claims) - {id}
  {
    rejected := ledger.Reject(id);
    resolved := ledger.Resolve(id);
  }

  /** A submitted pending claim appears in the pending listing under its new
      identifier; once resolved it appears in the resolved listing and no longer in
      the pending one. */
  method SubmitAndResolve(ledger: ClaimLedger, body: Claim)
      returns (id: Id, pendingBefore: map<Id, Claim>, pendingAfter: map<Id, Claim>, resolvedAfter: map<Id, Claim>)
    requires ledger.Valid()
    requires Validate(ClaimFromBody(body)).Some? && ClaimFromBody(body).status == Some("pending")
    modifies ledger
    ensures ledger.Valid()
    ensures id !in old(ledger.claims)
    ensures id in pendingBefore && pendingBefore[id] == Validate(ClaimFromBody(body)).value
    ensures id !in pendingAfter && id in resolvedAfter
    ensures resolvedAfter[id] == pendingBefore[id].(status := Some("resolved"))
  {
    id := ledger.nextId;
    var _ := ledger.Submit(body);
    pendingBefore := ledger.ListPending();
    var _ := ledger.Resolve(id);
    ResolveMovesBetweenListings(old(ledger.claims)[id := ledger.claims[id].(status := Some("pending"))], id);
    pendingAfter := ledger.ListPending();
    resolvedAfter := ledger.ListResolved();
  }
}
