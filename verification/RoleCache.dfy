/**
 The per-user cache of role codes on a space and its organization: filled by
 `getUserRolesByChild`, invalidated by two of the membership writes and not by the others.
 A user is identified by the e-mail address that the cache keys carry.
 */
module RoleCache {
  import opened Wrappers
  import Decimal

  /** A membership row of a user in a space or an organization; its role may have been unset. */
  datatype Row = Row(user: string, owner: int, role: Option<string>)

  /** One element of a cached role list. */
  datatype RoleEntry = RoleEntry(name: string, code: string)

  datatype Error = NoPermission | OwnerIsFixed | InvalidRoleCode | AttributeError

  /** Rows are in primary-key order. */
  datatype Store = Store(spaceRows: seq<Row>, orgRows: seq<Row>, cache: map<string, seq<RoleEntry>>)

  function Key(email: string, roleType: string, id: int): string {
    "user_roles_" + email + "_" + roleType + "_" + Decimal.Str(id)
  }

  function SpaceKey(email: string, space: int): string {
    Key(email, "space", space)
  }

  /** `.filter(user, owner).first()`. */
  function First(rows: seq<Row>, user: string, owner: int): Option<Row> {
    if rows == [] then None
    else if rows[0].user == user && rows[0].owner == owner then Some(rows[0])
    else First(rows[1..], user, owner)
  }

  /** `getParentUserRole`, with an empty code counting as none. */
  function RoleCode(rows: seq<Row>, user: string, owner: int): Option<string> {
    var row := First(rows, user, owner);
    if row.Some? && row.value.role.Some? && row.value.role.value != "" then row.value.role else None
  }

  function SetFirstRole(rows: seq<Row>, user: string, owner: int, role: string): seq<Row> {
    if rows == [] then []
    else if rows[0].user == user && rows[0].owner == owner then [rows[0].(role := Some(role))] + rows[1..]
    else [rows[0]] + SetFirstRole(rows[1..], user, owner, role)
  }

  function DeleteRows(rows: seq<Row>, user: string, owner: int): seq<Row> {
    if rows == [] then []
    else (if rows[0].user == user && rows[0].owner == owner then [] else [rows[0]]) + DeleteRows(rows[1..], user, owner)
  }

  function Levels(store: Store, user: string, space: int, org: Option<int>): seq<RoleEntry> {
    var spaceCode := RoleCode(store.spaceRows, user, space);
    var orgCode := if org.Some? then RoleCode(store.orgRows, user, org.value) else None;
    (if spaceCode.Some? then [RoleEntry("space", spaceCode.value)] else [])
    + (if orgCode.Some? then [RoleEntry("organization", orgCode.value)] else [])
  }

  datatype Op =
    | GetRoles(user: string, space: int, org: Option<int>)
    | Update(user: string, space: int, role: string, known: bool)  // `known`: getRole finds the code
    | Delete(user: string, space: int)
    | Create(user: string, space: int, role: string, known: bool)
    | WriteOrganizations(rows: seq<Row>)                             // any organization-level writes
    | CacheOther(user: string, roleType: string, id: int, roles: seq<RoleEntry>)  // entries of posts
    | Expire(key: string)

  /** What `processUpdatePermission` and `processDeletePermission` check before they write. */
  function Refusal(store: Store, user: string, space: int): Option<Error> {
    var row := First(store.spaceRows, user, space);
    if row.None? then Some(NoPermission)
    else if row.value.role.None? then Some(AttributeError)
    else if row.value.role.value == "owner" then Some(OwnerIsFixed)
    else None
  }

  function Apply(store: Store, op: Op): Store {
    match op
    case GetRoles(user, space, org) =>
      if SpaceKey(user, space) in store.cache then store
      else store.(cache := store.cache[SpaceKey(user, space) := Levels(store, user, space, org)])
    case Update(user, space, role, known) =>
      if Refusal(store, user, space).Some? || !known then store
      else store.(spaceRows := SetFirstRole(store.spaceRows, user, space, role),
                  cache := store.cache - {SpaceKey(user, space)})
    case Delete(user, space) =>
      if Refusal(store, user, space).Some? then store
      else store.(spaceRows := DeleteRows(store.spaceRows, user, space),
                  cache := store.cache - {SpaceKey(user, space)})
    case Create(user, space, role, known) =>
      if !known || Row(user, space, Some(role)) in store.spaceRows then store
      else store.(spaceRows := store.spaceRows + [Row(user, space, Some(role))])
    case WriteOrganizations(rows) => store.(orgRows := rows)
    case CacheOther(user, roleType, id, roles) => store.(cache := store.cache[Key(user, roleType, id) := roles])
    case Expire(key) => store.(cache := store.cache - {key})
  }

  class RoleService {
    var spaceRows: seq<Row>
    var orgRows: seq<Row>
    var cache: map<string, seq<RoleEntry>>

    ghost function Contents(): Store
      reads this
    {
      Store(spaceRows, orgRows, cache)
    }

    method GetUserRolesByChild(user: string, space: int, org: Option<int>) returns (allRoles: seq<RoleEntry>)
      modifies this`cache
      ensures Contents() == Apply(old(Contents()), GetRoles(user, space, org))
      ensures SpaceKey(user, space) in cache && allRoles == cache[SpaceKey(user, space)]
    {
      var redisKey := SpaceKey(user, space);
      if redisKey in cache {
        return cache[redisKey];
      }
      allRoles := [];
      var names := ["space", "organization"];
      for i := 0 to |names|
        invariant unchanged(this)
        invariant allRoles == (if i >= 1 && RoleCode(spaceRows, user, space).Some?
                               then [RoleEntry("space", RoleCode(spaceRows, user, space).value)] else [])
                              + (if i >= 2 && org.Some? && RoleCode(orgRows, user, org.value).Some?
                                 then [RoleEntry("organization", RoleCode(orgRows, user, org.value).value)] else [])
      {
        var roleCode := if i == 0 then RoleCode(spaceRows, user, space)
                        else if org.Some? then RoleCode(orgRows, user, org.value) else None;
        if roleCode.Some? {
          allRoles := allRoles + [RoleEntry(names[i], roleCode.value)];
        }
      }
      cache := cache[redisKey := allRoles];
    }

    method ProcessUpdatePermission(user: string, space: int, role: string, known: bool) returns (error: Option<Error>)
      modifies this`spaceRows, this`cache
      ensures Contents() == Apply(old(Contents()), Update(user, space, role, known))
      ensures var row := First(old(spaceRows), user, space);
              error == if row.None? then Some(NoPermission)
                       else if row.value.role.None? then Some(AttributeError)
                       else if row.value.role == Some("owner") then Some(OwnerIsFixed)
                       else if !known then Some(InvalidRoleCode)
                       else None
      ensures if error.Some? then unchanged(this)
              else First(spaceRows, user, space) == Some(Row(user, space, Some(role)))
                   && SpaceKey(user, space) !in cache
    {
      var row := First(spaceRows, user, space);
      if row.None? {
        return Some(NoPermission);
      }
      if row.value.role.None? {
        return Some(AttributeError);
      }
      if row.value.role.value == "owner" {
        return Some(OwnerIsFixed);
      }
      if !known {
        return Some(InvalidRoleCode);
      }
      UpdateSetsCode(spaceRows, user, space, role);
      spaceRows := SetFirstRole(spaceRows, user, space, role);
      cache := cache - {SpaceKey(user, space)};
      return None;
    }

    method ProcessDeletePermission(user: string, space: int) returns (error: Option<Error>)
      modifies this`spaceRows, this`cache
      ensures Contents() == Apply(old(Contents()), Delete(user, space))
      ensures var row := First(old(spaceRows), user, space);
              error == if row.None? then Some(NoPermission)
                       else if row.value.role.None? then Some(AttributeError)
                       else if row.value.role == Some("owner") then Some(OwnerIsFixed)
                       else None
      ensures if error.Some? then unchanged(this)
              else First(spaceRows, user, space) == None && SpaceKey(user, space) !in cache
    {
      var row := First(spaceRows, user, space);
      if row.None? {
        return Some(NoPermission);
      }
      if row.value.role.None? {
        return Some(AttributeError);
      }
      if row.value.role.value == "owner" {
        return Some(OwnerIsFixed);
      }
      DeleteElsewhere(spaceRows, user, space, user, space);
      spaceRows := DeleteRows(spaceRows, user, space);
      cache := cache - {SpaceKey(user, space)};
      return None;
    }

    method CreatePermission(user: string, space: int, role: string, known: bool) returns (error: Option<Error>)
      modifies this`spaceRows
      ensures Contents() == Apply(old(Contents()), Create(user, space, role, known))
      ensures error == if known then None else Some(InvalidRoleCode)
      ensures if known then Row(user, space, Some(role)) in spaceRows else unchanged(this)
    {
      if !known {
        return Some(InvalidRoleCode);
      }
      if Row(user, space, Some(role)) !in spaceRows {
        spaceRows := spaceRows + [Row(user, space, Some(role))];
      }
      return None;
    }
  }

  // ---------- Cache keys identify their user and space ----------

  lemma NoUnderscore(id: int)
    ensures '_' !in Decimal.Str(id)
  {
    var digits := Decimal.StrNat(if id < 0 then -id else id);
    assert forall i :: 0 <= i < |digits| ==> Decimal.IsDigit(digits[i]);
  }

  /** The part after the last underscore determines the part before it. */
  lemma LastUnderscoreSplits(a: string, x: string, b: string, y: string)
    requires '_' !in x && '_' !in y && a + "_" + x == b + "_" + y
    ensures a == b && x == y
  {
    var s := a + "_" + x;
    var t := b + "_" + y;
    assert s[|a|] == '_' && t[|b|] == '_';
    assert forall k :: |a| < k < |s| ==> s[k] == x[k - |a| - 1];
    assert forall k :: |b| < k < |t| ==> t[k] == y[k - |b| - 1];
    assert |a| == |b|;
    assert s[..|a|] == a && t[..|b|] == b && s[|a| + 1..] == x && t[|b| + 1..] == y;
  }

  lemma KeyParts(email: string, roleType: string, id: int, email': string, roleType': string, id': int)
    requires '_' !in roleType && '_' !in roleType'
    requires Key(email, roleType, id) == Key(email', roleType', id')
    ensures email == email' && roleType == roleType' && id == id'
  {
    var a, b := "user_roles_" + email, "user_roles_" + email';
    NoUnderscore(id);
    NoUnderscore(id');
    assert Key(email, roleType, id) == (a + "_" + roleType) + "_" + Decimal.Str(id);
    assert Key(email', roleType', id') == (b + "_" + roleType') + "_" + Decimal.Str(id');
    LastUnderscoreSplits(a + "_" + roleType, Decimal.Str(id), b + "_" + roleType', Decimal.Str(id'));
    Decimal.StrInjective(id, id');
    LastUnderscoreSplits(a, roleType, b, roleType');
    assert a[11..] == email && b[11..] == email';
  }

  /** An entry of another type never has a space's key, "main_post" with its own underscore included. */
  lemma OtherKeyIsNoSpaceKey(email: string, space: int, email': string, roleType: string, id: int)
    requires roleType != "" && roleType[|roleType| - 1] != 'e'
    ensures SpaceKey(email, space) != Key(email', roleType, id)
  {
    var a, b := "user_roles_" + email + "_" + "space", "user_roles_" + email' + "_" + roleType;
    NoUnderscore(space);
    NoUnderscore(id);
    assert SpaceKey(email, space) == a + "_" + Decimal.Str(space);
    assert Key(email', roleType, id) == b + "_" + Decimal.Str(id);
    assert a[|a| - 1] == 'e' && b[|b| - 1] == roleType[|roleType| - 1];
    if SpaceKey(email, space) == Key(email', roleType, id) {
      LastUnderscoreSplits(a, Decimal.Str(space), b, Decimal.Str(id));
    }
  }

  // ---------- Membership writes and the first row ----------

  lemma {:induction false} SetFirstElsewhere(rows: seq<Row>, user: string, owner: int, role: string, u: string, o: int)
    requires (u, o) != (user, owner)
    ensures First(SetFirstRole(rows, user, owner, role), u, o) == First(rows, u, o)
  {
    if rows != [] {
      SetFirstElsewhere(rows[1..], user, owner, role, u, o);
      assert SetFirstRole(rows, user, owner, role)[1..]
          == if rows[0].user == user && rows[0].owner == owner then rows[1..]
             else SetFirstRole(rows[1..], user, owner, role);
    }
  }

  lemma {:induction false} DeleteElsewhere(rows: seq<Row>, user: string, owner: int, u: string, o: int)
    ensures First(DeleteRows(rows, user, owner), u, o) == if (u, o) == (user, owner) then None else First(rows, u, o)
  {
    if rows != [] {
      DeleteElsewhere(rows[1..], user, owner, u, o);
      if rows[0].user == user && rows[0].owner == owner {
        assert DeleteRows(rows, user, owner) == DeleteRows(rows[1..], user, owner);
      } else {
        assert DeleteRows(rows, user, owner)[1..] == DeleteRows(rows[1..], user, owner);
      }
    }
  }

  lemma {:induction false} AppendLast(rows: seq<Row>, row: Row, u: string, o: int)
    ensures First(rows + [row], u, o)
         == if First(rows, u, o).Some? then First(rows, u, o) else First([row], u, o)
  {
    if rows == [] {
      assert rows + [row] == [row];
    } else {
      assert (rows + [row])[1..] == rows[1..] + [row];
      AppendLast(rows[1..], row, u, o);
    }
  }

  /** After an update the table's first row, and so its code, is the new role: what a later lookup will cache. */
  lemma {:induction false} UpdateSetsCode(rows: seq<Row>, user: string, owner: int, role: string)
    requires First(rows, user, owner).Some?
    ensures First(SetFirstRole(rows, user, owner, role), user, owner) == Some(Row(user, owner, Some(role)))
  {
    if !(rows[0].user == user && rows[0].owner == owner) {
      UpdateSetsCode(rows[1..], user, owner, role);
      assert SetFirstRole(rows, user, owner, role)[1..] == SetFirstRole(rows[1..], user, owner, role);
    }
  }

  /** The lookup is of the first row for that user and owner, in primary-key order. */
  lemma {:induction false} FirstIsFirst(rows: seq<Row>, user: string, owner: int)
    ensures First(rows, user, owner).None? <==>
            forall i :: 0 <= i < |rows| ==> rows[i].user != user || rows[i].owner != owner
    ensures First(rows, user, owner).Some? ==>
              exists i :: 0 <= i < |rows| && rows[i] == First(rows, user, owner).value && FirstAt(rows, user, owner, i)
  {
    if rows != [] {
      if rows[0].user == user && rows[0].owner == owner {
        assert FirstAt(rows, user, owner, 0);
      } else {
        FirstIsFirst(rows[1..], user, owner);
        assert forall i :: 1 <= i < |rows| ==> rows[i] == rows[1..][i - 1];
        if First(rows, user, owner).Some? {
          var rest := rows[1..];
          var i :| 0 <= i < |rest| && rest[i] == First(rest, user, owner).value && FirstAt(rest, user, owner, i);
          assert FirstAt(rows, user, owner, i + 1);
        }
      }
    }
  }

  predicate FirstAt(rows: seq<Row>, user: string, owner: int, i: nat)
    requires i < |rows|
  {
    && rows[i].user == user && rows[i].owner == owner
    && forall j :: 0 <= j < i ==> rows[j].user != user || rows[j].owner != owner
  }

  /** A lookup answers with at most one code per level, the space's first, and each is that of the level's first row. */
  lemma LevelsExactly(store: Store, user: string, space: int, org: Option<int>, entry: RoleEntry)
    ensures entry in Levels(store, user, space, org) <==>
            && entry.code != ""
            && (|| (entry.name == "space"
                    && First(store.spaceRows, user, space) == Some(Row(user, space, Some(entry.code))))
                || (entry.name == "organization" && org.Some?
                    && First(store.orgRows, user, org.value) == Some(Row(user, org.value, Some(entry.code)))))
    ensures var levels := Levels(store, user, space, org);
            |levels| <= 2 && (|levels| == 2 ==> levels[0].name == "space" && levels[1].name == "organization")
  {
    FirstMatches(store.spaceRows, user, space);
    if org.Some? {
      FirstMatches(store.orgRows, user, org.value);
    }
  }

  lemma {:induction false} FirstMatches(rows: seq<Row>, user: string, owner: int)
    ensures First(rows, user, owner).Some? ==>
              First(rows, user, owner).value.user == user && First(rows, user, owner).value.owner == owner
  {
    if rows != [] {
      FirstMatches(rows[1..], user, owner);
    }
  }

  // ---------- Coherence ----------

  function CachedSpaceCode(roles: seq<RoleEntry>): Option<string> {
    if roles != [] && roles[0].name == "space" then Some(roles[0].code) else None
  }

  /** Every present space entry carries the space-level code the table gives now. */
  ghost predicate Coherent(store: Store) {
    forall user, space :: SpaceKey(user, space) in store.cache ==>
      CachedSpaceCode(store.cache[SpaceKey(user, space)]) == RoleCode(store.spaceRows, user, space)
  }

  /** Creating a membership is safe when nothing is cached for that user and space, or it changes no code. */
  predicate CreateGuard(store: Store, op: Op)
    requires op.Create?
  {
    || !op.known
    || SpaceKey(op.user, op.space) !in store.cache
    || First(store.spaceRows, op.user, op.space).Some?
    || op.role == ""
  }

  predicate Permitted(store: Store, op: Op) {
    && (op.Create? ==> CreateGuard(store, op))
    && (op.CacheOther? ==> op.roleType == "post" || op.roleType == "main_post")
  }

  lemma LookupKeepsCoherence(store: Store, user: string, space: int, org: Option<int>)
    requires Coherent(store)
    ensures Coherent(Apply(store, GetRoles(user, space, org)))
  {
    var store' := Apply(store, GetRoles(user, space, org));
    forall u, s | SpaceKey(u, s) in store'.cache
      ensures CachedSpaceCode(store'.cache[SpaceKey(u, s)]) == RoleCode(store'.spaceRows, u, s)
    {
      if SpaceKey(u, s) == SpaceKey(user, space) {
        KeyParts(u, "space", s, user, "space", space);
      }
    }
  }

  lemma WriteKeepsCoherence(store: Store, op: Op)
    requires Coherent(store) && (op.Update? || op.Delete?)
    ensures Coherent(Apply(store, op))
  {
    var store' := Apply(store, op);
    forall u, s | SpaceKey(u, s) in store'.cache
      ensures CachedSpaceCode(store'.cache[SpaceKey(u, s)]) == RoleCode(store'.spaceRows, u, s)
    {
      if store' != store {
        assert (u, s) != (op.user, op.space);
        if op.Update? {
          SetFirstElsewhere(store.spaceRows, op.user, op.space, op.role, u, s);
        } else {
          DeleteElsewhere(store.spaceRows, op.user, op.space, u, s);
        }
      }
    }
  }

  lemma CreatedRow(rows: seq<Row>, user: string, space: int, role: string, u: string, s: int)
    ensures RoleCode(rows + [Row(user, space, Some(role))], u, s)
         == if (u, s) == (user, space) && First(rows, u, s).None? && role != "" then Some(role)
            else RoleCode(rows, u, s)
  {
    AppendLast(rows, Row(user, space, Some(role)), u, s);
    assert [Row(user, space, Some(role))][1..] == [];
  }

  lemma {:induction false} InMeansFirst(rows: seq<Row>, row: Row)
    requires row in rows
    ensures First(rows, row.user, row.owner).Some?
  {
    if rows[0] != row {
      InMeansFirst(rows[1..], row);
    }
  }

  /** Creating a membership in a coherent store keeps it coherent if and only if the guard holds. */
  lemma CreateKeepsCoherenceExactly(store: Store, op: Op)
    requires Coherent(store) && op.Create?
    ensures Coherent(Apply(store, op)) <==> CreateGuard(store, op)
  {
    var store' := Apply(store, op);
    var key := SpaceKey(op.user, op.space);
    if store' != store {
      forall u, s
        ensures RoleCode(store'.spaceRows, u, s)
             == if (u, s) == (op.user, op.space) && First(store.spaceRows, u, s).None? && op.role != ""
                then Some(op.role) else RoleCode(store.spaceRows, u, s)
      {
        CreatedRow(store.spaceRows, op.user, op.space, op.role, u, s);
      }
      if !CreateGuard(store, op) {
        assert CachedSpaceCode(store'.cache[key]) == RoleCode(store.spaceRows, op.user, op.space) == None;
        assert RoleCode(store'.spaceRows, op.user, op.space) == Some(op.role);
      }
    } else if op.known {
      InMeansFirst(store.spaceRows, Row(op.user, op.space, Some(op.role)));
    }
  }

  lemma OtherEntryKeepsCoherence(store: Store, op: Op)
    requires Coherent(store) && op.CacheOther? && Permitted(store, op)
    ensures Coherent(Apply(store, op))
  {
    forall u, s
      ensures SpaceKey(u, s) != Key(op.user, op.roleType, op.id)
    {
      OtherKeyIsNoSpaceKey(u, s, op.user, op.roleType, op.id);
    }
  }

  lemma StepKeepsCoherence(store: Store, op: Op)
    requires Coherent(store) && Permitted(store, op)
    ensures Coherent(Apply(store, op))
  {
    match op {
      case GetRoles(user, space, org) => LookupKeepsCoherence(store, user, space, org);
      case Update(_, _, _, _) => WriteKeepsCoherence(store, op);
      case Delete(_, _) => WriteKeepsCoherence(store, op);
      case Create(_, _, _, _) => CreateKeepsCoherenceExactly(store, op);
      case WriteOrganizations(_) =>
      case CacheOther(_, _, _, _) => OtherEntryKeepsCoherence(store, op);
      case Expire(_) =>
    }
  }

  function Run(start: Store, ops: seq<Op>): Store {
    if ops == [] then start else Apply(Run(start, ops[..|ops| - 1]), ops[|ops| - 1])
  }

  predicate AllPermitted(start: Store, ops: seq<Op>) {
    ops == [] || (AllPermitted(start, ops[..|ops| - 1]) && Permitted(Run(start, ops[..|ops| - 1]), ops[|ops| - 1]))
  }

  /**
   Over every run of lookups, updates, deletions, guarded creations, ancestor writes and expiries, the
   cache stays coherent.
   */
  lemma {:induction false} RunKeepsCoherence(start: Store, ops: seq<Op>)
    requires Coherent(start) && AllPermitted(start, ops)
    ensures Coherent(Run(start, ops))
  {
    if ops != [] {
      RunKeepsCoherence(start, ops[..|ops| - 1]);
      StepKeepsCoherence(Run(start, ops[..|ops| - 1]), ops[|ops| - 1]);
    }
  }

  /** So, starting from an empty cache, a lookup always answers with the table's own space-level code. */
  lemma {:induction false} LookupAnswersWithTableCode(
    start: Store, ops: seq<Op>, user: string, space: int, org: Option<int>)
    requires start.cache == map[] && AllPermitted(start, ops)
    ensures var store := Run(start, ops);
            var store' := Apply(store, GetRoles(user, space, org));
            CachedSpaceCode(store'.cache[SpaceKey(user, space)]) == RoleCode(store.spaceRows, user, space)
  {
    RunKeepsCoherence(start, ops);
    LookupKeepsCoherence(Run(start, ops), user, space, org);
  }

  /** Creating the same membership again changes nothing. */
  lemma CreateIsIdempotent(store: Store, op: Op)
    requires op.Create?
    ensures Apply(Apply(store, op), op) == Apply(store, op)
  {
  }

  // ---------- Owners ----------

  predicate OwnsSpace(store: Store, user: string, space: int) {
    First(store.spaceRows, user, space) == Some(Row(user, space, Some("owner")))
  }

  lemma StepKeepsOwner(store: Store, op: Op, user: string, space: int)
    requires OwnsSpace(store, user, space)
    ensures OwnsSpace(Apply(store, op), user, space)
  {
    match op {
      case Update(u, s, role, _) =>
        if (u, s) != (user, space) {
          SetFirstElsewhere(store.spaceRows, u, s, role, user, space);
        }
      case Delete(u, s) => DeleteElsewhere(store.spaceRows, u, s, user, space);
      case Create(u, s, role, _) => AppendLast(store.spaceRows, Row(u, s, Some(role)), user, space);
      case _ =>
    }
  }

  /** The owner of a space stays its owner: no run of these operations demotes or removes them. */
  lemma {:induction false} OwnerStays(start: Store, ops: seq<Op>, user: string, space: int)
    requires OwnsSpace(start, user, space)
    ensures First(Run(start, ops).spaceRows, user, space) == Some(Row(user, space, Some("owner")))
  {
    if ops != [] {
      OwnerStays(start, ops[..|ops| - 1], user, space);
      StepKeepsOwner(Run(start, ops[..|ops| - 1]), ops[|ops| - 1], user, space);
    }
  }

  // ---------- Organization-level codes ----------

  /** The organization of each space that has one. */
  type Organizations = map<int, int>

  function OrgOf(orgs: Organizations, space: int): Option<int> {
    if space in orgs then Some(orgs[space]) else None
  }

  /** Every present space entry is, at both levels, what a lookup would answer from the tables now. */
  ghost predicate Current(store: Store, orgs: Organizations) {
    forall user, space :: SpaceKey(user, space) in store.cache ==>
      store.cache[SpaceKey(user, space)] == Levels(store, user, space, OrgOf(orgs, space))
  }

  /** The write gives every user with a cached entry the code they had in the organization of that entry's space. */
  ghost predicate OrganizationGuard(store: Store, orgs: Organizations, rows: seq<Row>) {
    forall user, space :: SpaceKey(user, space) in store.cache && space in orgs ==>
      RoleCode(rows, user, orgs[space]) == RoleCode(store.orgRows, user, orgs[space])
  }

  lemma LevelsAgreeExactly(store: Store, rows: seq<Row>, user: string, space: int, org: Option<int>)
    ensures Levels(store.(orgRows := rows), user, space, org) == Levels(store, user, space, org)
        <==> (org.Some? ==> RoleCode(rows, user, org.value) == RoleCode(store.orgRows, user, org.value))
  {
    var code := RoleCode(store.spaceRows, user, space);
    var head := if code.Some? then [RoleEntry("space", code.value)] else [];
    if org.Some? {
      var before, after := RoleCode(store.orgRows, user, org.value), RoleCode(rows, user, org.value);
      var tail := if before.Some? then [RoleEntry("organization", before.value)] else [];
      var tail' := if after.Some? then [RoleEntry("organization", after.value)] else [];
      assert (head + tail)[|head|..] == tail && (head + tail')[|head|..] == tail';
      assert tail == tail' ==> before == after by {
        if tail == tail' && tail != [] {
          assert tail[0].code == tail'[0].code;
        }
      }
    }
  }

  /** An organization-level write leaves the cached answers current if and only if the guard holds. */
  lemma OrganizationWriteKeepsCurrentExactly(store: Store, orgs: Organizations, rows: seq<Row>)
    requires Current(store, orgs)
    ensures Current(Apply(store, WriteOrganizations(rows)), orgs) <==> OrganizationGuard(store, orgs, rows)
  {
    forall user, space
      ensures Levels(store.(orgRows := rows), user, space, OrgOf(orgs, space))
              == Levels(store, user, space, OrgOf(orgs, space))
          <==> (space in orgs ==> RoleCode(rows, user, orgs[space]) == RoleCode(store.orgRows, user, orgs[space]))
    {
      LevelsAgreeExactly(store, rows, user, space, OrgOf(orgs, space));
    }
    assert Apply(store, WriteOrganizations(rows)) == store.(orgRows := rows);
  }

  /** The operations that keep the cache current: each lookup names the space's organization, and both guards hold. */
  ghost predicate PermittedOp(store: Store, orgs: Organizations, op: Op) {
    && Permitted(store, op)
    && (op.GetRoles? ==> op.org == OrgOf(orgs, op.space))
    && (op.WriteOrganizations? ==> OrganizationGuard(store, orgs, op.rows))
  }

  /** A space-level write leaves alone the answers of every cached entry it does not drop. */
  lemma SpaceWriteKeepsLevels(store: Store, op: Op, user: string, space: int, org: Option<int>)
    requires op.Update? || op.Delete? || (op.Create? && CreateGuard(store, op))
    requires SpaceKey(user, space) in Apply(store, op).cache
    ensures Levels(Apply(store, op), user, space, org) == Levels(store, user, space, org)
  {
    if Apply(store, op) != store {
      match op {
        case Update(u, s, role, _) => SetFirstElsewhere(store.spaceRows, u, s, role, user, space);
        case Delete(u, s) => DeleteElsewhere(store.spaceRows, u, s, user, space);
        case Create(u, s, role, _) => CreatedRow(store.spaceRows, u, s, role, user, space);
      }
    }
  }

  lemma StepKeepsCurrent(store: Store, orgs: Organizations, op: Op)
    requires Current(store, orgs) && PermittedOp(store, orgs, op)
    ensures Current(Apply(store, op), orgs)
  {
    var store' := Apply(store, op);
    if op.WriteOrganizations? {
      OrganizationWriteKeepsCurrentExactly(store, orgs, op.rows);
    } else {
      forall user, space | SpaceKey(user, space) in store'.cache
        ensures store'.cache[SpaceKey(user, space)] == Levels(store', user, space, OrgOf(orgs, space))
      {
        EntryStaysCurrent(store, orgs, op, user, space);
      }
    }
  }

  lemma EntryStaysCurrent(store: Store, orgs: Organizations, op: Op, user: string, space: int)
    requires Current(store, orgs) && PermittedOp(store, orgs, op) && !op.WriteOrganizations?
    requires SpaceKey(user, space) in Apply(store, op).cache
    ensures Apply(store, op).cache[SpaceKey(user, space)]
         == Levels(Apply(store, op), user, space, OrgOf(orgs, space))
  {
    match op {
      case GetRoles(u, s, _) =>
        if SpaceKey(user, space) == SpaceKey(u, s) {
          KeyParts(user, "space", space, u, "space", s);
        }
      case CacheOther(u, roleType, id, _) => OtherKeyIsNoSpaceKey(user, space, u, roleType, id);
      case Expire(_) =>
      case _ => SpaceWriteKeepsLevels(store, op, user, space, OrgOf(orgs, space));
    }
  }

  ghost predicate AllPermittedOps(start: Store, orgs: Organizations, ops: seq<Op>) {
    ops == [] ||
    (AllPermittedOps(start, orgs, ops[..|ops| - 1])
     && PermittedOp(Run(start, ops[..|ops| - 1]), orgs, ops[|ops| - 1]))
  }

  /**
   So over every run whose organization-level writes meet the guard, every cached answer is current at
   both levels.
   */
  lemma {:induction false} RunKeepsCurrent(start: Store, orgs: Organizations, ops: seq<Op>)
    requires Current(start, orgs) && AllPermittedOps(start, orgs, ops)
    ensures Current(Run(start, ops), orgs)
  {
    if ops != [] {
      RunKeepsCurrent(start, orgs, ops[..|ops| - 1]);
      StepKeepsCurrent(Run(start, ops[..|ops| - 1]), orgs, ops[|ops| - 1]);
    }
  }

  /** Ancestor-level codes can be stale: after an organization write a lookup still reports the old one. */
  lemma AncestorCodeCanBeStale(user: string, space: int, org: int)
    ensures var start := Store([], [Row(user, org, Some("owner"))], map[]);
            var first := Apply(start, GetRoles(user, space, Some(org)));
            var written := Apply(first, WriteOrganizations([]));
            var second := Apply(written, GetRoles(user, space, Some(org)));
            && Coherent(second)
            && second.cache[SpaceKey(user, space)] == [RoleEntry("organization", "owner")]
            && Levels(second, user, space, Some(org)) == []
  {
    var start := Store([], [Row(user, org, Some("owner"))], map[]);
    LookupKeepsCoherence(start, user, space, Some(org));
    var first := Apply(start, GetRoles(user, space, Some(org)));
    assert Levels(start, user, space, Some(org)) == [RoleEntry("organization", "owner")];
    assert Apply(first, WriteOrganizations([])).cache == first.cache;
  }
}
