// DCQL queries and the builder's check on them (src/core/dcql.rs,
// src/verifier/request_builder.rs, `validate_dcql`; section 6 of OpenID4VP 1.0).
module Dcql {
  import opened Wrappers

  datatype DcqlClaim = DcqlClaim(id: Option<string>)

  datatype DcqlCredential = DcqlCredential(
    id: string,
    claims: Option<seq<DcqlClaim>>,
    claimSets: Option<seq<seq<string>>>)

  datatype DCQL = DCQL(credentials: seq<DcqlCredential>)

  datatype DcqlError =
    | DuplicateCredentialIds
    | MissingClaimId
    | DuplicateClaimIds
    | ClaimSetsWithoutClaims

  ghost predicate Distinct<A(!new)>(s: seq<A>) {
    forall i, j :: 0 <= i < j < |s| ==> s[i] != s[j]
  }

  function CredentialIds(credentials: seq<DcqlCredential>): seq<string> {
    seq(|credentials|, i requires 0 <= i < |credentials| => credentials[i].id)
  }

  function ClaimIds(claims: seq<DcqlClaim>): seq<Option<string>> {
    seq(|claims|, i requires 0 <= i < |claims| => claims[i].id)
  }

  // What is wrong with a credential query, if anything.
  ghost function ClaimProblem(c: DcqlCredential): Option<DcqlError> {
    if c.claimSets.None? then None
    else if c.claims.None? then Some(ClaimSetsWithoutClaims)
    else if None in ClaimIds(c.claims.value) then Some(MissingClaimId)
    else if !Distinct(ClaimIds(c.claims.value)) then Some(DuplicateClaimIds)
    else None
  }

  ghost predicate WellFormed(q: DCQL) {
    Distinct(CredentialIds(q.credentials)) && forall c :: c in q.credentials ==> ClaimProblem(c) == None
  }

  lemma DistinctSnoc<A(!new)>(init: seq<A>, last: A)
    ensures Distinct(init + [last]) <==> Distinct(init) && last !in init
  {
    var s := init + [last];
    assert forall i :: 0 <= i < |init| ==> s[i] == init[i];
    assert s[|init|] == last;
    if last in init {
      var i :| 0 <= i < |init| && init[i] == last;
      assert s[i] == s[|init|];
    }
  }

  // A list is as long as the set of its elements exactly when nothing repeats.
  lemma {:induction false} SizeTellsDistinct<A(!new)>(s: seq<A>)
    ensures |set x | x in s| <= |s|
    ensures |set x | x in s| == |s| <==> Distinct(s)
    decreases |s|
  {
    if s != [] {
      var init, last := s[..|s| - 1], s[|s| - 1];
      SizeTellsDistinct(init);
      DistinctSnoc(init, last);
      assert s == init + [last];
      assert (set x | x in s) == (set x | x in init) + {last};
    }
  }

  // Repeated credential ids come first, then what is wrong with the first bad credential query.
  ghost predicate FirstProblem(q: DCQL, e: DcqlError) {
    if !Distinct(CredentialIds(q.credentials)) then e == DuplicateCredentialIds
    else exists i :: 0 <= i < |q.credentials| && ClaimProblem(q.credentials[i]) == Some(e)
                     && forall j :: 0 <= j < i ==> ClaimProblem(q.credentials[j]) == None
  }

  method ValidateDcql(q: DCQL) returns (r: Result<(), DcqlError>)
    ensures r.Ok? <==> WellFormed(q)
    ensures r.Err? ==> FirstProblem(q, r.error)
  {
    var ids := CredentialIds(q.credentials);
    SizeTellsDistinct(ids);
    var credentialIds := set id | id in ids;
    if |credentialIds| != |q.credentials| {
      return Err(DuplicateCredentialIds);
    }
    for i := 0 to |q.credentials|
      invariant forall j :: 0 <= j < i ==> ClaimProblem(q.credentials[j]) == None
    {
      var credential := q.credentials[i];
      assert credential in q.credentials;
      match (credential.claims, credential.claimSets) {
        case (Some(claims), Some(_)) =>
          var checked := ValidateClaimIds(claims);
          if checked.Err? {
            return checked;
          }
        case (None, Some(_)) =>
          return Err(ClaimSetsWithoutClaims);
        case _ =>
      }
    }
    return Ok(());
  }

  // The inner loop: collects the claim ids into a set and compares sizes.
  method ValidateClaimIds(claims: seq<DcqlClaim>) returns (r: Result<(), DcqlError>)
    ensures r == if None in ClaimIds(claims) then Err(MissingClaimId)
                 else if !Distinct(ClaimIds(claims)) then Err(DuplicateClaimIds)
                 else Ok(())
  {
    var claimIds: set<Option<string>> := {};
    var all := ClaimIds(claims);
    for i := 0 to |claims|
      invariant claimIds == set id | id in all[..i]
      invariant None !in all[..i]
    {
      assert all[..i + 1] == all[..i] + [all[i]];
      match claims[i].id {
        case Some(id) =>
          claimIds := claimIds + {Some(id)};
        case None =>
          assert all[i] == None;
          return Err(MissingClaimId);
      }
    }
    assert all[..|claims|] == all;
    SizeTellsDistinct(all);
    if |claimIds| != |claims| {
      return Err(DuplicateClaimIds);
    }
    return Ok(());
  }
}
