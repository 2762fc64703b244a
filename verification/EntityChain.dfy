/** The chain of entities above a post or a space, and the permissions a user holds along it. */
module EntityChain {
  import opened Wrappers

  datatype Organization = Organization(id: int, privacy: string)
  datatype Space = Space(id: int, privacy: string, organization: Option<Organization>)
  datatype Post = Post(id: int, privacy: string, mainPost: Option<Post>, space: Option<Space>)

  /** The type names "organization", "space" and "post". */
  datatype EntityType = OrganizationType | SpaceType | PostType

  datatype Entity = OfOrganization(organization: Organization) | OfSpace(space: Space) | OfPost(post: Post) {
    function Type(): EntityType {
      match this
      case OfOrganization(_) => OrganizationType
      case OfSpace(_) => SpaceType
      case OfPost(_) => PostType
    }

    function Id(): int {
      match this
      case OfOrganization(o) => o.id
      case OfSpace(s) => s.id
      case OfPost(p) => p.id
    }

    function Privacy(): string {
      match this
      case OfOrganization(o) => o.privacy
      case OfSpace(s) => s.privacy
      case OfPost(p) => p.privacy
    }

    /** A post's main post comes before its space. */
    function Parent(): Option<Entity> {
      match this
      case OfOrganization(_) => None
      case OfSpace(s) => if s.organization.Some? then Some(OfOrganization(s.organization.value)) else None
      case OfPost(p) =>
        if p.mainPost.Some? then Some(OfPost(p.mainPost.value))
        else if p.space.Some? then Some(OfSpace(p.space.value))
        else None
    }

    function Row(): EntityRow {
      EntityRow(Id(), Type(), Id(), Privacy(), "entity", if Parent().Some? then Parent().value.Id() else 0)
    }
  }

  /** The name of a row is the entity's id; that is what the source passes for it. */
  datatype EntityRow = EntityRow(
    id: int, entityType: EntityType, name: int, privacy: string, relationship: string, parentId: int)
  datatype Permission = Permission(rowId: int, user: int, role: string, entityId: int, entityType: EntityType)
  datatype Error = UnboundLocalError

  /** A membership row and its role code, if its role is set. */
  datatype Membership = Membership(rowId: int, role: Option<string>)

  /** One user's first membership row per entity type and id. */
  datatype Memberships = Memberships(user: int, rows: map<(EntityType, int), Membership>)

  function RoleOn(memberships: Memberships, e: Entity): Option<string> {
    var key := (e.Type(), e.Id());
    if key in memberships.rows then memberships.rows[key].role else None
  }

  function PostHeight(p: Post): nat {
    1 + if p.mainPost.Some? then PostHeight(p.mainPost.value) else 0
  }

  function Height(e: Entity): nat {
    match e
    case OfOrganization(_) => 0
    case OfSpace(_) => 1
    case OfPost(p) => 1 + PostHeight(p)
  }

  /** The entity, its parent, the parent's parent, and so on. */
  function Ancestors(e: Entity): (chain: seq<Entity>)
    ensures chain != []
    decreases Height(e)
  {
    if e.Parent().Some? then [e] + Ancestors(e.Parent().value) else [e]
  }

  /** `Ancestors` is the parent path: it starts at the entity, follows parents, and stops only where there is none. */
  lemma {:induction false} AncestorsFollowParents(e: Entity, i: nat)
    requires i < |Ancestors(e)|
    ensures Ancestors(e)[0] == e
    ensures Ancestors(e)[i].Parent() == if i + 1 < |Ancestors(e)| then Some(Ancestors(e)[i + 1]) else None
    decreases i
  {
    if i > 0 {
      AncestorsFollowParents(e.Parent().value, i - 1);
    } else if e.Parent().Some? {
      assert Ancestors(e)[1] == Ancestors(e.Parent().value)[0];
      AncestorsStartHere(e.Parent().value);
    }
  }

  /** The chain of a reply goes through its main post, and only a post without one goes on to its space. */
  lemma ChainOfPost(p: Post)
    ensures Ancestors(OfPost(p))
         == [OfPost(p)]
            + match p.mainPost
              case Some(main) => Ancestors(OfPost(main))
              case None =>
                match p.space
                case Some(space) => Ancestors(OfSpace(space))
                case None => []
    ensures p.mainPost.Some? ==>
              OfPost(p).Row() == EntityRow(p.id, PostType, p.id, p.privacy, "entity", p.mainPost.value.id)
    ensures p.mainPost.None? && p.space.Some? ==>
              OfPost(p).Row() == EntityRow(p.id, PostType, p.id, p.privacy, "entity", p.space.value.id)
  {
  }

  /** The chain of a space is the space and its organization, if it has one. */
  lemma ChainOfSpace(s: Space)
    ensures Ancestors(OfSpace(s))
         == [OfSpace(s)] + if s.organization.Some? then [OfOrganization(s.organization.value)] else []
    ensures s.organization.Some? ==>
              && OfSpace(s).Row() == EntityRow(s.id, SpaceType, s.id, s.privacy, "entity", s.organization.value.id)
              && var o := s.organization.value;
                 OfOrganization(o).Row() == EntityRow(o.id, OrganizationType, o.id, o.privacy, "entity", 0)
  {
    if s.organization.Some? {
      assert Ancestors(OfOrganization(s.organization.value)) == [OfOrganization(s.organization.value)];
    }
  }

  lemma AncestorsStartHere(e: Entity)
    ensures Ancestors(e)[0] == e
  {
  }

  function Rows(chain: seq<Entity>): (rows: seq<EntityRow>)
    ensures |rows| == |chain| && forall i :: 0 <= i < |chain| ==> rows[i] == chain[i].Row()
  {
    seq(|chain|, i requires 0 <= i < |chain| => chain[i].Row())
  }

  function Permissions(memberships: Memberships, chain: seq<Entity>): seq<Permission> {
    if chain == [] then []
    else
      OwnPermission(memberships, chain[0]) + Permissions(memberships, chain[1..])
  }

  function OwnPermission(memberships: Memberships, e: Entity): seq<Permission> {
    var role := RoleOn(memberships, e);
    if role.Some? then
      [Permission(memberships.rows[(e.Type(), e.Id())].rowId, memberships.user, role.value, e.Id(), e.Type())]
    else []
  }

  lemma RowsCons(e: Entity, above: seq<Entity>)
    ensures Rows([e] + above) == [e.Row()] + Rows(above)
  {
  }

  lemma PermissionsCons(memberships: Memberships, e: Entity, above: seq<Entity>)
    ensures Permissions(memberships, [e] + above) == OwnPermission(memberships, e) + Permissions(memberships, above)
  {
    assert ([e] + above)[1..] == above;
  }

  /**
   What the recursion up the chain yields: the rows of exactly the chain from the entity to its
   organization; a chain that ends at a space lacks that space's own row, and one that ends at a
   post with neither main post nor space raises.
   */
  function Expected(memberships: Memberships, e: Entity): Result<(seq<EntityRow>, seq<Permission>), Error> {
    var chain := Ancestors(e);
    match chain[|chain| - 1]
    case OfOrganization(_) => Ok((Rows(chain), Permissions(memberships, chain)))
    case OfSpace(_) => Ok((Rows(chain[..|chain| - 1]), Permissions(memberships, chain)))
    case OfPost(_) => Err(UnboundLocalError)
  }

  lemma ExpectedAtTop(memberships: Memberships, e: Entity)
    requires e.Parent().None? && !e.OfPost?
    ensures Expected(memberships, e) == Ok((if e.OfOrganization? then [e.Row()] else [], OwnPermission(memberships, e)))
  {
    assert [e][1..] == [] && [e][..0] == [];
    assert Rows([e]) == [e.Row()] && Rows([]) == [];
    assert OwnPermission(memberships, e) + [] == OwnPermission(memberships, e);
    assert Permissions(memberships, [e]) == OwnPermission(memberships, e) + Permissions(memberships, []);
  }

  lemma ExpectedBelow(memberships: Memberships, e: Entity)
    requires e.Parent().Some?
    ensures var above := Expected(memberships, e.Parent().value);
            Expected(memberships, e)
            == if above.Err? then above
               else Ok(([e.Row()] + above.value.0, OwnPermission(memberships, e) + above.value.1))
  {
    var above := Ancestors(e.Parent().value);
    assert ([e] + above)[..|above|] == [e] + above[..|above| - 1];
    RowsCons(e, above);
    RowsCons(e, above[..|above| - 1]);
    PermissionsCons(memberships, e, above);
  }

  method GetEntityPermissions(e: Entity, memberships: Memberships)
    returns (r: Result<(seq<EntityRow>, seq<Permission>), Error>)
    ensures r == Expected(memberships, e)
    decreases Height(e)
  {
    var entities: seq<EntityRow>, permissions: seq<Permission> := [], [];
    var role := RoleOn(memberships, e);
    if role.Some? {
      var row := memberships.rows[(e.Type(), e.Id())];
      permissions := permissions + [Permission(row.rowId, memberships.user, role.value, e.Id(), e.Type())];
    }
    if e.Parent().Some? {
      ExpectedBelow(memberships, e);
    } else if !e.OfPost? {
      ExpectedAtTop(memberships, e);
    }
    match e {
      case OfPost(p) =>
        var above: Result<(seq<EntityRow>, seq<Permission>), Error>;
        if p.mainPost.Some? {
          above := GetEntityPermissions(OfPost(p.mainPost.value), memberships);
          entities := entities + [EntityRow(p.id, PostType, p.id, p.privacy, "entity", p.mainPost.value.id)];
        } else if p.space.Some? {
          above := GetEntityPermissions(OfSpace(p.space.value), memberships);
          entities := entities + [EntityRow(p.id, PostType, p.id, p.privacy, "entity", p.space.value.id)];
        } else {
          return Err(UnboundLocalError);
        }
        if above.Err? {
          return above;
        }
        assert entities == [e.Row()] && permissions == OwnPermission(memberships, e);
        entities := entities + above.value.0;
        permissions := permissions + above.value.1;
      case OfSpace(s) =>
        if s.organization.Some? {
          var above := GetEntityPermissions(OfOrganization(s.organization.value), memberships);
          entities := entities + [EntityRow(s.id, SpaceType, s.id, s.privacy, "entity", s.organization.value.id)];
          assert entities == [e.Row()] && permissions == OwnPermission(memberships, e);
          entities := entities + above.value.0;
          permissions := permissions + above.value.1;
        }
      case OfOrganization(o) =>
        entities := entities + [EntityRow(o.id, OrganizationType, o.id, o.privacy, "entity", 0)];
        assert entities == [e.Row()];
    }
    assert e.Parent().None? ==> permissions == OwnPermission(memberships, e);
    return Ok((entities, permissions));
  }

  // ---------- The permission matrix ----------

  /** A line of the matrix; the source writes its privacies as one comma-separated text. */
  datatype MatrixLine = MatrixLine(
    level: string, parentRole: string, role: string, privacies: seq<string>, allowed: seq<string>)
  datatype MatrixRow = MatrixRow(
    level: string, parentRole: string, role: string, privacy: string, allowed: seq<string>)

  function JoinCommas(names: seq<string>): string {
    if names == [] then ""
    else if |names| == 1 then names[0]
    else names[0] + "," + JoinCommas(names[1..])
  }

  function CommaIndex(s: string): (i: nat)
    ensures i <= |s|
  {
    if s == "" || s[0] == ',' then 0 else 1 + CommaIndex(s[1..])
  }

  /** `s.split(",")`. */
  function SplitCommas(s: string): seq<string>
    decreases |s|
  {
    var i := CommaIndex(s);
    if i == |s| then [s] else [s[..i]] + SplitCommas(s[i + 1..])
  }

  function Expand(line: MatrixLine, privacies: seq<string>): seq<MatrixRow> {
    seq(|privacies|, i requires 0 <= i < |privacies| =>
          MatrixRow(line.level, line.parentRole, line.role, privacies[i], line.allowed))
  }

  function ExpandAll(lines: seq<MatrixLine>): seq<MatrixRow> {
    if lines == [] then []
    else
      var line := lines[|lines| - 1];
      ExpandAll(lines[..|lines| - 1]) + Expand(line, SplitCommas(JoinCommas(line.privacies)))
  }

  const SHARING := ["share_entity", "share_permission", "view_list", "view_content", "comment", "use_superpilot"]
  const FULL := ["add", "edit"] + SHARING
  const FULL_WITH_DELETE := ["add", "edit", "delete"] + SHARING

  const OPEN := ["shared", "public", "link"]

  const MATRIX: seq<MatrixLine> := [
    MatrixLine("entity", "None", "owner", ["private"] + OPEN, FULL_WITH_DELETE + ["transfer_ownership"]),
    MatrixLine("child", "owner", "None", ["private"], ["transfer_ownership", "delete"]),
    MatrixLine("child", "owner", "viewer", OPEN, FULL),
    MatrixLine("child", "owner", "editor", OPEN, FULL),
    MatrixLine("entity", "None", "editor", OPEN, FULL),
    MatrixLine("child", "editor", "None", ["private"], []),
    MatrixLine("child", "editor", "viewer", OPEN, ["add"] + SHARING),
    MatrixLine("child", "editor", "editor", OPEN, FULL_WITH_DELETE),
    MatrixLine("entity", "None", "viewer", OPEN, SHARING),
    MatrixLine("child", "viewer", "None", ["private", "shared"], []),
    MatrixLine("child", "viewer", "viewer", OPEN, SHARING),
    MatrixLine("child", "viewer", "editor", OPEN, FULL_WITH_DELETE),
    MatrixLine("entity", "None", "None", ["public", "link"], ["view_list", "view_content", "comment"])
  ]

  lemma ExpandStep(line: MatrixLine, privacies: seq<string>, k: nat)
    requires k < |privacies|
    ensures Expand(line, privacies[..k + 1])
         == Expand(line, privacies[..k])
            + [MatrixRow(line.level, line.parentRole, line.role, privacies[k], line.allowed)]
  {
  }

  method LoadPermissionMatrix(lines: seq<MatrixLine>) returns (matrix: seq<MatrixRow>)
    ensures matrix == ExpandAll(lines)
  {
    matrix := [];
    for n := 0 to |lines|
      invariant matrix == ExpandAll(lines[..n])
    {
      assert lines[..n + 1][..n] == lines[..n];
      var privacies := SplitCommas(JoinCommas(lines[n].privacies));
      ghost var before := matrix;
      for k := 0 to |privacies|
        invariant matrix == before + Expand(lines[n], privacies[..k])
      {
        var line := lines[n];
        matrix := matrix + [MatrixRow(line.level, line.parentRole, line.role, privacies[k], line.allowed)];
        ExpandStep(line, privacies, k);
        assert matrix == before + (Expand(line, privacies[..k])
                                   + [MatrixRow(line.level, line.parentRole, line.role, privacies[k], line.allowed)]);
      }
      assert privacies[..|privacies|] == privacies;
    }
    assert lines[..|lines|] == lines;
  }

  /** `str(role)`: a missing role is matched as the text "None". */
  function RoleText(role: Option<string>): string {
    if role.Some? then role.value else "None"
  }

  function FilterPermissions(matrix: seq<MatrixRow>, role: Option<string>, privacy: string): seq<seq<string>> {
    if matrix == [] then []
    else
      FilterPermissions(matrix[..|matrix| - 1], role, privacy)
      + var row := matrix[|matrix| - 1];
        if row.role == RoleText(role) && row.privacy == privacy then [row.allowed] else []
  }

  /** The lines that name the role and list the privacy, once each. */
  function MatchingLines(lines: seq<MatrixLine>, role: Option<string>, privacy: string): seq<seq<string>> {
    if lines == [] then []
    else
      MatchingLines(lines[..|lines| - 1], role, privacy)
      + var line := lines[|lines| - 1];
        if line.role == RoleText(role) && privacy in line.privacies then [line.allowed] else []
  }

  /** A line matches the role it names and any privacy it lists; a user without a role matches lines for "None". */
  lemma LineMatches(line: MatrixLine, role: Option<string>, privacy: string)
    ensures MatchingLines([line], role, privacy)
         == if (match role case None => line.role == "None" case Some(code) => line.role == code)
               && privacy in line.privacies
            then [line.allowed] else []
  {
    assert [line][..0] == [];
    assert MatchingLines([], role, privacy) == [];
  }

  lemma {:induction false} MatchingConcat(a: seq<MatrixLine>, b: seq<MatrixLine>, role: Option<string>, privacy: string)
    ensures MatchingLines(a + b, role, privacy) == MatchingLines(a, role, privacy) + MatchingLines(b, role, privacy)
    decreases |b|
  {
    if b == [] {
      assert a + b == a;
    } else {
      assert (a + b)[..|a + b| - 1] == a + b[..|b| - 1];
      MatchingConcat(a, b[..|b| - 1], role, privacy);
    }
  }

  predicate NoRepeats(names: seq<string>) {
    forall i, j :: 0 <= i < j < |names| ==> names[i] != names[j]
  }

  lemma {:induction false} FilterConcat(a: seq<MatrixRow>, b: seq<MatrixRow>, role: Option<string>, privacy: string)
    ensures FilterPermissions(a + b, role, privacy)
         == FilterPermissions(a, role, privacy) + FilterPermissions(b, role, privacy)
    decreases |b|
  {
    if b == [] {
      assert a + b == a;
    } else {
      assert (a + b)[..|a + b| - 1] == a + b[..|b| - 1];
      FilterConcat(a, b[..|b| - 1], role, privacy);
    }
  }

  lemma {:induction false} FilterExpanded(
    line: MatrixLine, privacies: seq<string>, role: Option<string>, privacy: string)
    requires NoRepeats(privacies)
    ensures FilterPermissions(Expand(line, privacies), role, privacy)
         == if line.role == RoleText(role) && privacy in privacies then [line.allowed] else []
    decreases |privacies|
  {
    if privacies != [] {
      var shorter := privacies[..|privacies| - 1];
      assert Expand(line, privacies)[..|privacies| - 1] == Expand(line, shorter);
      assert forall p :: p in privacies <==> p in shorter || p == privacies[|privacies| - 1];
      FilterExpanded(line, shorter, role, privacy);
    }
  }

  /** Filtering the loaded matrix picks exactly the matching lines, in order. */
  lemma {:induction false} FilterPicksMatchingLines(lines: seq<MatrixLine>, role: Option<string>, privacy: string)
    requires forall i :: 0 <= i < |lines| ==> WellFormed(lines[i])
    ensures FilterPermissions(ExpandAll(lines), role, privacy) == MatchingLines(lines, role, privacy)
  {
    if lines != [] {
      var shorter := lines[..|lines| - 1];
      var line := lines[|lines| - 1];
      FilterPicksMatchingLines(shorter, role, privacy);
      SplitJoined(line.privacies);
      FilterConcat(ExpandAll(shorter), Expand(line, line.privacies), role, privacy);
      FilterExpanded(line, line.privacies, role, privacy);
    }
  }

  lemma {:induction false} SplitAtComma(head: string, tail: string)
    requires ',' !in head
    ensures SplitCommas(head + "," + tail) == [head] + SplitCommas(tail)
    ensures SplitCommas(head) == [head]
  {
    CommaAfter(head, tail);
    var s := head + "," + tail;
    assert s[..|head|] == head && s[|head| + 1..] == tail;
  }

  lemma {:induction false} CommaAfter(head: string, tail: string)
    requires ',' !in head
    ensures CommaIndex(head + "," + tail) == |head| && CommaIndex(head) == |head|
  {
    if head != "" {
      assert (head + "," + tail)[1..] == head[1..] + "," + tail;
      CommaAfter(head[1..], tail);
    }
  }

  lemma {:induction false} SplitJoined(names: seq<string>)
    requires names != [] && forall i :: 0 <= i < |names| ==> ',' !in names[i]
    ensures SplitCommas(JoinCommas(names)) == names
  {
    if |names| == 1 {
      SplitAtComma(names[0], "");
    } else {
      SplitJoined(names[1..]);
      SplitAtComma(names[0], JoinCommas(names[1..]));
    }
  }

  /** What the source's matrix relies on: each line lists comma-free privacies, none of them twice. */
  ghost predicate WellFormed(line: MatrixLine) {
    GoodNames(line.privacies)
  }

  ghost predicate GoodNames(names: seq<string>) {
    names != [] && NoRepeats(names) && forall i :: 0 <= i < |names| ==> ',' !in names[i]
  }

  lemma SourceListsAreGood()
    ensures GoodNames(OPEN) && GoodNames(["private"] + OPEN)
    ensures GoodNames(["private"]) && GoodNames(["private", "shared"]) && GoodNames(["public", "link"])
  {
    assert OPEN[0][0] == 's' && OPEN[1][0] == 'p' && OPEN[2][0] == 'l';
    assert |"private"| != |OPEN[1]|;
    assert "private"[0] == 'p' && "shared"[0] == 's' && "public"[0] == 'p' && "link"[0] == 'l';
  }

  lemma SourceMatrixIsWellFormed()
    ensures forall i :: 0 <= i < |MATRIX| ==> WellFormed(MATRIX[i])
  {
    SourceListsAreGood();
  }

  // ---------- Annotating the chain ----------

  datatype Annotated = Annotated(row: EntityRow, role: Option<string>, allowed: seq<seq<string>>)

  /** Role of the user's first permission on an entity id, whatever the entity's type. */
  function FirstRole(permissions: seq<Permission>, user: int, id: int): Option<string> {
    if permissions == [] then None
    else if permissions[0].user == user && permissions[0].entityId == id then Some(permissions[0].role)
    else FirstRole(permissions[1..], user, id)
  }

  predicate Concerns(permission: Permission, user: int, id: int) {
    permission.user == user && permission.entityId == id
  }

  /**
   The role found is that of the first permission with both the user and the id; there is none if
   no permission has.
   */
  lemma {:induction false} FirstRoleExactly(permissions: seq<Permission>, user: int, id: int)
    ensures FirstRole(permissions, user, id).None? <==>
            forall i :: 0 <= i < |permissions| ==> permissions[i].user != user || permissions[i].entityId != id
    ensures FirstRole(permissions, user, id).Some? ==>
              exists i :: 0 <= i < |permissions| && FirstConcernedAt(permissions, user, id, i)
                       && permissions[i].role == FirstRole(permissions, user, id).value
  {
    if permissions != [] {
      var rest := permissions[1..];
      if Concerns(permissions[0], user, id) {
        assert FirstConcernedAt(permissions, user, id, 0);
      } else {
        FirstRoleExactly(rest, user, id);
        assert forall i :: 1 <= i < |permissions| ==> permissions[i] == rest[i - 1];
        if FirstRole(rest, user, id).Some? {
          var i :| 0 <= i < |rest| && FirstConcernedAt(rest, user, id, i)
                   && rest[i].role == FirstRole(rest, user, id).value;
          assert FirstConcernedAt(permissions, user, id, i + 1);
        }
      }
    }
  }

  predicate FirstConcernedAt(permissions: seq<Permission>, user: int, id: int, i: nat)
    requires i < |permissions|
  {
    Concerns(permissions[i], user, id) && forall j :: 0 <= j < i ==> !Concerns(permissions[j], user, id)
  }

  /** What the annotation makes of a row, asked for the entity `entityId`. */
  function AnnotatedRow(permissions: seq<Permission>, matrix: seq<MatrixRow>, user: int, entityId: int, row: EntityRow)
    : Annotated
  {
    var role := FirstRole(permissions, user, row.id);
    Annotated(
      row.(relationship := if row.id != entityId then "parent" else "entity"),
      role,
      FilterPermissions(matrix, role, row.privacy))
  }

  class PermissionManager {
    var entities: seq<Annotated>
    const userPermissions: seq<Permission>
    const matrix: seq<MatrixRow>

    constructor (rows: seq<EntityRow>, userPermissions: seq<Permission>, matrix: seq<MatrixRow>)
      ensures |entities| == |rows| && forall i :: 0 <= i < |rows| ==> entities[i] == Annotated(rows[i], None, [])
      ensures this.userPermissions == userPermissions && this.matrix == matrix
    {
      entities := seq(|rows|, i requires 0 <= i < |rows| => Annotated(rows[i], None, []));
      this.userPermissions := userPermissions;
      this.matrix := matrix;
    }

    method FindUserPermissions(userId: int, entityId: int) returns (role: Option<string>)
      ensures role == FirstRole(userPermissions, userId, entityId)
    {
      for i := 0 to |userPermissions|
        invariant FirstRole(userPermissions, userId, entityId) == FirstRole(userPermissions[i..], userId, entityId)
      {
        if userPermissions[i].user == userId && userPermissions[i].entityId == entityId {
          return Some(userPermissions[i].role);
        }
      }
      return None;
    }

    method GetPermissions(userId: int, entityId: int)
      modifies this`entities
      ensures |entities| == |old(entities)|
      ensures forall i :: 0 <= i < |entities| ==>
                entities[i] == AnnotatedRow(userPermissions, matrix, userId, entityId, old(entities)[i].row)
    {
      for i := 0 to |entities|
        invariant |entities| == |old(entities)|
        invariant forall k :: i <= k < |entities| ==> entities[k] == old(entities)[k]
        invariant forall k :: 0 <= k < i ==>
                    entities[k] == AnnotatedRow(userPermissions, matrix, userId, entityId, old(entities)[k].row)
      {
        var row := entities[i].row;
        var role := FindUserPermissions(userId, row.id);
        var relationship := if row.id != entityId then "parent" else "entity";
        var allowed := FilterPermissions(matrix, role, row.privacy);
        entities := entities[i := Annotated(row.(relationship := relationship), role, allowed)];
      }
    }
  }

  /** No two entities of the chain share an id across types; the annotation looks roles up by id alone. */
  predicate NoCrossTypeIds(chain: seq<Entity>) {
    forall i, j :: 0 <= i < |chain| && 0 <= j < |chain| && chain[i].Id() == chain[j].Id() ==>
      chain[i].Type() == chain[j].Type()
  }

  lemma {:induction false} FirstRoleIsOwn(memberships: Memberships, chain: seq<Entity>, e: Entity)
    requires forall i :: 0 <= i < |chain| && chain[i].Id() == e.Id() ==> chain[i].Type() == e.Type()
    ensures FirstRole(Permissions(memberships, chain), memberships.user, e.Id())
         == if exists i :: 0 <= i < |chain| && chain[i].Id() == e.Id() then RoleOn(memberships, e) else None
    decreases |chain|
  {
    if chain != [] {
      FirstRoleIsOwn(memberships, chain[1..], e);
      var p := Permissions(memberships, chain);
      if RoleOn(memberships, chain[0]).Some? {
        assert p[1..] == Permissions(memberships, chain[1..]);
      } else {
        assert p == Permissions(memberships, chain[1..]);
      }
      assert forall i :: 1 <= i < |chain| ==> chain[i] == chain[1..][i - 1];
      if k :| 1 <= k < |chain| && chain[k].Id() == e.Id() {
        assert chain[1..][k - 1].Id() == e.Id();
      }
    }
  }

  /** The memberships of a user with a single one. */
  function OnlyOn(key: (EntityType, int), role: string): Memberships {
    Memberships(0, map[key := Membership(0, Some(role))])
  }

  /** A user with a single membership: wherever its id occurs on the chain, its role is what the lookup finds. */
  lemma {:induction false} OnlyRoleIsFound(key: (EntityType, int), role: string, chain: seq<Entity>, i: nat)
    requires i < |chain| && (chain[i].Type(), chain[i].Id()) == key
    ensures FirstRole(Permissions(OnlyOn(key, role), chain), 0, key.1) == Some(role)
    decreases |chain|
  {
    var memberships := OnlyOn(key, role);
    var p := Permissions(memberships, chain);
    if (chain[0].Type(), chain[0].Id()) == key {
      assert p[0] == Permission(0, 0, role, key.1, key.0);
    } else {
      assert p == Permissions(memberships, chain[1..]);
      OnlyRoleIsFound(key, role, chain[1..], i - 1);
    }
  }

  lemma SharedIdMisleads(chain: seq<Entity>, i: nat, j: nat)
    requires i < |chain| && j < |chain| && chain[i].Id() == chain[j].Id() && chain[i].Type() != chain[j].Type()
    ensures exists memberships: Memberships ::
              FirstRole(Permissions(memberships, chain), memberships.user, chain[j].Id())
              != RoleOn(memberships, chain[j])
  {
    var key := (chain[i].Type(), chain[i].Id());
    var memberships := OnlyOn(key, "owner");
    OnlyRoleIsFound(key, "owner", chain, i);
    assert RoleOn(memberships, chain[j]) == None;
  }

  /**
   Every entity of the chain is annotated with the user's own role on it, whatever the user's
   memberships, exactly when no id is shared across types along the chain.
   */
  lemma AnnotationIsOwnRoleExactly(chain: seq<Entity>)
    ensures (forall memberships: Memberships, i :: 0 <= i < |chain| ==>
               FirstRole(Permissions(memberships, chain), memberships.user, chain[i].Id())
               == RoleOn(memberships, chain[i]))
        <==> NoCrossTypeIds(chain)
  {
    if NoCrossTypeIds(chain) {
      forall memberships: Memberships, i | 0 <= i < |chain|
        ensures FirstRole(Permissions(memberships, chain), memberships.user, chain[i].Id())
             == RoleOn(memberships, chain[i])
      {
        FirstRoleIsOwn(memberships, chain, chain[i]);
      }
    } else {
      var i, j :|
        && 0 <= i < |chain| && 0 <= j < |chain|
        && chain[i].Id() == chain[j].Id() && chain[i].Type() != chain[j].Type();
      SharedIdMisleads(chain, i, j);
    }
  }

  // ---------- The whole request ----------

  /** The entities that the recursion gives a row: the whole chain, except a space that ends it. */
  function Shown(e: Entity): seq<Entity> {
    var chain := Ancestors(e);
    if chain[|chain| - 1].OfOrganization? then chain else chain[..|chain| - 1]
  }

  lemma ExpectedShown(memberships: Memberships, e: Entity)
    ensures var chain := Ancestors(e);
            Expected(memberships, e)
            == if chain[|chain| - 1].OfPost? then Err(UnboundLocalError)
               else Ok((Rows(Shown(e)), Permissions(memberships, chain)))
  {
  }

  /** `a` is what entity i of the chain should carry. */
  ghost predicate IsAnnotation(memberships: Memberships, e: Entity, i: nat, a: Annotated)
    requires i < |Shown(e)|
  {
    var entity := Shown(e)[i];
    && a.row == entity.Row().(relationship := if entity.Id() != e.Id() then "parent" else "entity")
    && a.allowed == MatchingLines(MATRIX, a.role, entity.Privacy())
    && (NoCrossTypeIds(Ancestors(e)) ==> a.role == RoleOn(memberships, entity))
  }

  lemma ShownIsAnnotated(memberships: Memberships, e: Entity, i: nat)
    requires i < |Shown(e)|
    ensures IsAnnotation(memberships, e, i,
              AnnotatedRow(Permissions(memberships, Ancestors(e)), ExpandAll(MATRIX), memberships.user, e.Id(),
                           Shown(e)[i].Row()))
  {
    var entity := Shown(e)[i];
    var role := FirstRole(Permissions(memberships, Ancestors(e)), memberships.user, entity.Id());
    SourceMatrixIsWellFormed();
    FilterPicksMatchingLines(MATRIX, role, entity.Privacy());
    if NoCrossTypeIds(Ancestors(e)) {
      assert entity == Ancestors(e)[i];
      FirstRoleIsOwn(memberships, Ancestors(e), entity);
    }
  }

  /**
   `getUserPermissionOnEntity`: each entity of the chain, in order, with exactly the operation lists
   of the matrix lines for its role and privacy; and, when no id is shared across types along the
   chain, with the user's own role on it.
   */
  method GetUserPermissionOnEntity(e: Entity, memberships: Memberships) returns (r: Result<seq<Annotated>, Error>)
    ensures var chain := Ancestors(e);
            r.Err? <==> chain[|chain| - 1].OfPost?
    ensures r.Ok? ==> |r.value| == |Shown(e)|
    ensures r.Ok? ==> forall i :: 0 <= i < |r.value| ==> IsAnnotation(memberships, e, i, r.value[i])
  {
    var found := GetEntityPermissions(e, memberships);
    ExpectedShown(memberships, e);
    if found.Err? {
      return Err(found.error);
    }
    var (rows, permissions) := found.value;
    var matrix := LoadPermissionMatrix(MATRIX);
    var manager := new PermissionManager(rows, permissions, matrix);
    manager.GetPermissions(memberships.user, e.Id());
    forall i | 0 <= i < |manager.entities|
      ensures IsAnnotation(memberships, e, i, manager.entities[i])
    {
      ShownIsAnnotated(memberships, e, i);
    }
    return Ok(manager.entities);
  }
}
