/** The role that decides a user's access, and the operation tables it is looked up in. */
module StrongestRole {
  import opened Wrappers

  const GUEST_OPERATION := ["view_detail", "view_list"]
  const VIEWER_OPERATION := ["view_detail", "view_list"]
  const EDITOR_OPERATION :=
    VIEWER_OPERATION + ["add", "edit", "delete", "view_user_list", "share_entity", "privacy_update"]
  const OWNER_OPERATION := EDITOR_OPERATION + ["transfer_ownership", "archive"]
  const STREAM_OPERATION := ["comment", "use_superpilot", "start_stream", "end_stream"]

  /** `ROLE_BASED_INDEX`. */
  function Index(code: string): Option<nat> {
    if code == "owner" then Some(10)
    else if code == "editor" then Some(9)
    else if code == "viewer" || code == "commentor" then Some(8)
    else None
  }

  predicate Ranked(code: string) {
    Index(code).Some?
  }

  function IndexOr(code: Option<string>, default: nat): nat {
    if code.Some? && Ranked(code.value) then Index(code.value).value else default
  }

  /** The operation table of a role type; `None` where the table has no such code. */
  function Table(roleType: string, code: string): Option<seq<string>> {
    if roleType == "organization" || roleType == "space" then
      if code == "owner" then Some(OWNER_OPERATION)
      else if code == "editor" then Some(EDITOR_OPERATION)
      else if code == "viewer" then Some(VIEWER_OPERATION)
      else if code == "guest" then Some(GUEST_OPERATION)
      else None
    else if roleType == "post" then
      if code == "owner" then Some(OWNER_OPERATION + STREAM_OPERATION)
      else if code == "editor" then Some(EDITOR_OPERATION + STREAM_OPERATION)
      else if code == "viewer" then Some(VIEWER_OPERATION + ["comment"])
      else if code == "guest" then Some(GUEST_OPERATION)
      else None
    else None
  }

  /** A code missing from the table gets the viewer's operations, and an unknown role type none. */
  function GetRoleBasedOperation(code: Option<string>, roleType: string): seq<string> {
    var viewer := Table(roleType, "viewer");
    var found := if code.Some? && Table(roleType, code.value).Some? then Table(roleType, code.value) else viewer;
    if found.Some? then found.value else []
  }

  /** `role` is the last of the codes of maximal rank, or None when no code is ranked. */
  ghost predicate IsFinalRole(codes: seq<string>, role: Option<string>) {
    match role
    case None => forall i :: 0 <= i < |codes| ==> !Ranked(codes[i])
    case Some(code) =>
      exists i :: 0 <= i < |codes| && codes[i] == code && StrongestAt(codes, i)
  }

  predicate StrongestAt(codes: seq<string>, i: nat)
    requires i < |codes|
  {
    && Ranked(codes[i])
    && (forall j :: 0 <= j < i && Ranked(codes[j]) ==> Index(codes[j]).value <= Index(codes[i]).value)
    && (forall j :: i < j < |codes| && Ranked(codes[j]) ==> Index(codes[j]).value < Index(codes[i]).value)
  }

  /** The fold with its early exit at rank 10; `isAuthenticated` and the user's codes come from the caller. */
  method GetUserFinalRole(isAuthenticated: bool, codes: seq<string>) returns (finalRole: Option<string>)
    ensures !isAuthenticated ==> finalRole == None
    ensures isAuthenticated ==> IsFinalRole(codes, finalRole)
  {
    if !isAuthenticated {
      return None;
    }
    finalRole := None;
    var i := 0;
    while i < |codes|
      invariant 0 <= i <= |codes|
      invariant IsFinalRole(codes[..i], finalRole)
    {
      var currentRoleIndex := IndexOr(Some(codes[i]), 5);
      ghost var before := finalRole;
      if IndexOr(finalRole, 8) <= currentRoleIndex {
        finalRole := Some(codes[i]);
        FoldStep(codes, i, before, finalRole);
        if currentRoleIndex >= 10 {
          OwnerIsFinal(codes, i);
          return;
        }
      } else {
        FoldStep(codes, i, before, finalRole);
      }
      i := i + 1;
    }
    assert codes[..i] == codes;
  }

  lemma FoldStep(codes: seq<string>, i: nat, before: Option<string>, after: Option<string>)
    requires i < |codes| && IsFinalRole(codes[..i], before)
    requires after == if IndexOr(before, 8) <= IndexOr(Some(codes[i]), 5) then Some(codes[i]) else before
    ensures IsFinalRole(codes[..i + 1], after)
  {
    var longer := codes[..i + 1];
    assert longer[..i] == codes[..i];
    if IndexOr(before, 8) <= IndexOr(Some(codes[i]), 5) {
      LastIsStrongest(longer, before);
    } else {
      StrongestStays(longer, before);
    }
  }

  /** A code no weaker than the final role of those before it takes its place ... */
  lemma LastIsStrongest(codes: seq<string>, before: Option<string>)
    requires codes != [] && IsFinalRole(codes[..|codes| - 1], before)
    requires IndexOr(before, 8) <= IndexOr(Some(codes[|codes| - 1]), 5)
    ensures IsFinalRole(codes, Some(codes[|codes| - 1]))
  {
    var n := |codes| - 1;
    if before.Some? {
      var k :| 0 <= k < n && codes[..n][k] == before.value && StrongestAt(codes[..n], k);
      assert forall j :: 0 <= j < n ==> codes[..n][j] == codes[j];
    } else {
      assert forall j :: 0 <= j < n ==> !Ranked(codes[..n][j]);
    }
    assert StrongestAt(codes, n);
  }

  /** ... and a weaker one leaves it. */
  lemma StrongestStays(codes: seq<string>, before: Option<string>)
    requires codes != [] && IsFinalRole(codes[..|codes| - 1], before)
    requires IndexOr(before, 8) > IndexOr(Some(codes[|codes| - 1]), 5)
    ensures IsFinalRole(codes, before)
  {
    var n := |codes| - 1;
    assert forall j :: 0 <= j < n ==> codes[..n][j] == codes[j];
    if before.Some? {
      var k :| 0 <= k < n && codes[..n][k] == before.value && StrongestAt(codes[..n], k);
      assert codes[k] == before.value && StrongestAt(codes, k);
    }
  }

  /** The early exit changes nothing: whatever follows an owner, the final role is "owner". */
  lemma {:induction false} OwnerIsFinal(codes: seq<string>, i: nat)
    requires i < |codes| && codes[i] == "owner"
    ensures IsFinalRole(codes, Some("owner"))
    decreases |codes| - i
  {
    if j :| i < j < |codes| && codes[j] == "owner" {
      OwnerIsFinal(codes, j);
    } else {
      assert StrongestAt(codes, i);
    }
  }

  /** Two answers that satisfy `IsFinalRole` are the same, so the specification leaves no choice. */
  lemma FinalRoleIsUnique(codes: seq<string>, a: Option<string>, b: Option<string>)
    requires IsFinalRole(codes, a) && IsFinalRole(codes, b)
    ensures a == b
  {
  }

  ghost function Operations(code: Option<string>, roleType: string): set<string> {
    set op | op in GetRoleBasedOperation(code, roleType)
  }

  /** A ranked role may do whatever an unranked role or one of no higher rank may do. */
  lemma OperationsGrowWithRank(weaker: string, stronger: string, roleType: string)
    requires Ranked(stronger) && IndexOr(Some(weaker), 0) <= Index(stronger).value
    ensures Operations(Some(weaker), roleType) <= Operations(Some(stronger), roleType)
  {
  }

  /**
   When some role is ranked, the operations of the final role are exactly the union of the
   operations of all the user's roles, for every role type.
   */
  lemma FinalRoleGrantsUnion(codes: seq<string>, finalRole: Option<string>, roleType: string)
    requires IsFinalRole(codes, finalRole) && finalRole.Some?
    ensures Operations(finalRole, roleType)
         == set code, op | code in codes && op in GetRoleBasedOperation(Some(code), roleType) :: op
  {
    forall code | code in codes
      ensures Operations(Some(code), roleType) <= Operations(finalRole, roleType)
    {
      OperationsGrowWithRank(code, finalRole.value, roleType);
    }
    forall op | op in (set code, op | code in codes && op in GetRoleBasedOperation(Some(code), roleType) :: op)
      ensures op in Operations(finalRole, roleType)
    {
      var code :| code in codes && op in GetRoleBasedOperation(Some(code), roleType);
      assert op in Operations(Some(code), roleType);
    }
  }

  /** The ranked codes and their order. */
  lemma RankedExactly(code: string)
    ensures Ranked(code) <==> code in ["owner", "editor", "viewer", "commentor"]
    ensures Index("viewer") == Index("commentor")
    ensures Index("viewer").value < Index("editor").value < Index("owner").value
  {
  }

  predicate KnownType(roleType: string) {
    roleType in ["organization", "space", "post"]
  }

  lemma OwnersOnly(code: Option<string>, roleType: string, op: string)
    requires op in ["transfer_ownership", "archive"]
    ensures op in Operations(code, roleType) <==> KnownType(roleType) && code == Some("owner")
  {
  }

  lemma EditorsToo(code: Option<string>, roleType: string, op: string)
    requires op in ["add", "edit", "delete", "view_user_list", "share_entity", "privacy_update"]
    ensures op in Operations(code, roleType) <==>
            KnownType(roleType) && (code == Some("owner") || code == Some("editor"))
  {
  }

  lemma EditorsOfPosts(code: Option<string>, roleType: string, op: string)
    requires op in ["use_superpilot", "start_stream", "end_stream"]
    ensures op in Operations(code, roleType) <==>
            roleType == "post" && (code == Some("owner") || code == Some("editor"))
  {
  }

  /** Everyone may view, with a role or without ... */
  lemma EveryoneViews(code: Option<string>, roleType: string, op: string)
    requires op in ["view_detail", "view_list"]
    ensures op in Operations(code, roleType) <==> KnownType(roleType)
  {
  }

  /** ... and all but guests may comment on a post. */
  lemma AllButGuestsComment(code: Option<string>, roleType: string)
    ensures "comment" in Operations(code, roleType) <==> roleType == "post" && code != Some("guest")
  {
  }

  /** A user without a role, or with an unknown one, may do what a viewer may, which on a post includes to comment. */
  lemma NoRoleIsViewer(code: Option<string>, roleType: string)
    requires code.None? || code.value !in ["owner", "editor", "viewer", "guest"]
    ensures GetRoleBasedOperation(code, roleType) == GetRoleBasedOperation(Some("viewer"), roleType)
  {
  }
}
