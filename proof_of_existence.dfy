/** The proof-of-existence pallet: accounts claim pieces of content, each claim with one owner,
    and only the owner may revoke it. */
module ProofOfExistence {
  import opened Wrappers

  /** `DispatchResult`: success, or a static error message. */
  type DispatchResult = Result<(), string>

  datatype Call<Content> = CreateClaim(claim: Content) | RevokeClaim(claim: Content)

  /** The claims after `create_claim`, or its error. */
  function Created<Content, AccountId>(claims: map<Content, AccountId>, caller: AccountId, claim: Content)
    : Result<map<Content, AccountId>, string>
  {
    if claim in claims then Err("Claim already exists") else Ok(claims[claim := caller])
  }

  /** The claims after `revoke_claim`, or its error. */
  function Revoked<Content, AccountId(==)>(claims: map<Content, AccountId>, caller: AccountId, claim: Content)
    : Result<map<Content, AccountId>, string>
  {
    if claim !in claims then Err("Claim does not exist")
    else if claims[claim] != caller then Err("Caller is not the owner of the claim")
    else Ok(claims - {claim})
  }

  /** The claims after `dispatch`, or its error. */
  function Dispatched<Content, AccountId(==)>(claims: map<Content, AccountId>, caller: AccountId, call: Call<Content>)
    : Result<map<Content, AccountId>, string>
  {
    match call
    case CreateClaim(claim) => Created(claims, caller, claim)
    case RevokeClaim(claim) => Revoked(claims, caller, claim)
  }

  class Pallet<Content(==), AccountId(==)> {
    /** Content to its owner. */
    var claims: map<Content, AccountId>

    constructor ()
      ensures claims == map[]
    {
      claims := map[];
    }

    function GetClaim(claim: Content): (r: Option<AccountId>)
      reads this
      ensures r.Some? <==> claim in claims
      ensures r.Some? ==> r.value == claims[claim]
    {
      if claim in claims then Some(claims[claim]) else None
    }

    method CreateClaim(caller: AccountId, claim: Content) returns (r: DispatchResult)
      modifies this
      ensures Created(old(claims), caller, claim).Ok? ==> r == Ok(()) && claims == Created(old(claims), caller, claim).value
      ensures Created(old(claims), caller, claim).Err? ==> r == Err(Created(old(claims), caller, claim).error) && claims == old(claims)
    {
      match GetClaim(claim)
      case Some(_) =>
        r := Err("Claim already exists");
      case None =>
        claims := claims[claim := caller];
        r := Ok(());
    }

    method RevokeClaim(caller: AccountId, claim: Content) returns (r: DispatchResult)
      modifies this
      ensures Revoked(old(claims), caller, claim).Ok? ==> r == Ok(()) && claims == Revoked(old(claims), caller, claim).value
      ensures Revoked(old(claims), caller, claim).Err? ==> r == Err(Revoked(old(claims), caller, claim).error) && claims == old(claims)
    {
      var owner := GetClaim(claim);
      if owner.None? {
        return Err("Claim does not exist");
      }
      if owner.value != caller {
        return Err("Caller is not the owner of the claim");
      }
      claims := claims - {claim};
      r := Ok(());
    }

    method Dispatch(caller: AccountId, call: Call<Content>) returns (r: DispatchResult)
      modifies this
      ensures Dispatched(old(claims), caller, call).Ok? ==> r == Ok(()) && claims == Dispatched(old(claims), caller, call).value
      ensures Dispatched(old(claims), caller, call).Err? ==> r == Err(Dispatched(old(claims), caller, call).error) && claims == old(claims)
    {
      match call
      case CreateClaim(claim) =>
        r := CreateClaim(caller, claim);
      case RevokeClaim(claim) =>
        r := RevokeClaim(caller, claim);
    }
  }

  // ---------------------------------------------------------------------------

  /** Creating an unclaimed claim records the caller as its owner and touches no other claim;
      an existing claim is refused. */
  lemma CreateMeaning<Content, AccountId>(claims: map<Content, AccountId>, caller: AccountId, claim: Content)
    ensures Created(claims, caller, claim).Err? <==> claim in claims
    ensures Created(claims, caller, claim).Err? ==> Created(claims, caller, claim).error == "Claim already exists"
    ensures Created(claims, caller, claim).Ok? ==>
      var after := Created(claims, caller, claim).value;
      && claim in after && after[claim] == caller
      && after.Keys == claims.Keys + {claim}
      && forall c :: c in claims ==> after[c] == claims[c]
  {
  }

  /** Revoking succeeds exactly for the owner, and then removes that one claim; otherwise the
      error says whether the claim is missing or owned by someone else. */
  lemma RevokeMeaning<Content, AccountId>(claims: map<Content, AccountId>, caller: AccountId, claim: Content)
    ensures Revoked(claims, caller, claim).Ok? <==> claim in claims && claims[claim] == caller
    ensures claim !in claims ==> Revoked(claims, caller, claim) == Err("Claim does not exist")
    ensures claim in claims && claims[claim] != caller ==>
      Revoked(claims, caller, claim) == Err("Caller is not the owner of the claim")
    ensures Revoked(claims, caller, claim).Ok? ==>
      var after := Revoked(claims, caller, claim).value;
      && claim !in after
      && after.Keys == claims.Keys - {claim}
      && forall c :: c in after ==> after[c] == claims[c]
  {
  }

  /** Revoking a claim just created by the same caller gives back the claims before it. */
  lemma CreateThenRevoke<Content, AccountId>(claims: map<Content, AccountId>, caller: AccountId, claim: Content)
    requires claim !in claims
    ensures Revoked(Created(claims, caller, claim).value, caller, claim) == Ok(claims)
  {
    assert Created(claims, caller, claim).value - {claim} == claims;
  }

  /** The run of the prototype's test: alice claims, bob can neither revoke nor claim it again,
      revoking a missing claim fails, and alice's revocation leaves nothing. */
  lemma ClaimScenario<Content, AccountId>(alice: AccountId, bob: AccountId, doc: Content, missing: Content)
    requires alice != bob && doc != missing
    ensures var c1 := Created(map[], alice, doc).value;
      && c1[doc] == alice
      && Revoked(c1, bob, doc) == Err("Caller is not the owner of the claim")
      && Created(c1, bob, doc) == Err("Claim already exists")
      && Revoked(c1, alice, missing) == Err("Claim does not exist")
      && Revoked(c1, alice, doc) == Ok(map[])
  {
    var c1 := Created(map[], alice, doc).value;
    assert c1 - {doc} == map[];
  }
}
