/** Validating a roles document. */
module AccessValidate {
  import opened AccessText
  import opened AccessCompile

  const SCHEMA_VERSION := 1
  const MAX_ROLES := 128
  const MAX_PERMS_PER_ROLE := 64

  datatype Document = Document(
    version: int, revision: int, updatedAt: string, updatedBy: string, roles: map<string, Role>)

  datatype Field = VersionField | RolesField | RoleField(code: string) | ScopeField(code: string)
                 | CapabilitiesField(code: string) | PermissionsField(code: string)

  datatype Problem =
    | UnsupportedVersion | TooManyRoles | InvalidRoleCode | RoleCodeNotUppercase | InvalidScope
    | UnknownCapability | WildcardForbidden | UnknownPermission | TooManyPermissions | EmptyRole

  datatype Detail = Detail(field: Field, problem: Problem)

  predicate RoleCodeShape(s: string) {
    && 1 <= |s| <= 16
    && 'A' <= s[0] <= 'Z'
    && forall i :: 0 < i < |s| ==> 'A' <= s[i] <= 'Z' || '0' <= s[i] <= '9' || s[i] == '_'
  }

  function ScopeOf(role: Role): string {
    Lower(Trim(role.scope))
  }

  predicate KnownScope(scope: string) {
    scope == "global" || scope == "customer" || scope == "team"
  }

  // ------------------------------------------------------------------ what is wrong with a document

  predicate Ungrantable(catalog: Catalog, p: string) {
    p != "*" && p !in catalog.permissions
  }

  predicate AnyUngrantable(catalog: Catalog, ps: set<string>) {
    exists p :: p in ps && Ungrantable(catalog, p)
  }

  predicate Objectionable(catalog: Catalog, ps: set<string>, allowWildcard: bool, q: Problem) {
    || (q == WildcardForbidden && "*" in ps && !allowWildcard)
    || (q == UnknownPermission && AnyUngrantable(catalog, ps))
  }

  /** What is wrong with the role's granted permissions. */
  predicate GrantProblem(catalog: Catalog, granted: set<string>, allowWildcard: bool, q: Problem) {
    || Objectionable(catalog, granted, allowWildcard, q)
    || (q == TooManyPermissions && |granted| > MAX_PERMS_PER_ROLE)
    || (q == EmptyRole && granted == {})
  }

  /** What is wrong with the rest of it. */
  predicate ShapeProblem(catalog: Catalog, code: string, role: Role, q: Problem) {
    || (q == RoleCodeNotUppercase && Normalize(code) != Trim(code))
    || (q == InvalidRoleCode && !RoleCodeShape(Normalize(code)))
    || (q == InvalidScope && !KnownScope(ScopeOf(role)))
    || (q == UnknownCapability && exists c :: c in role.capabilities && c !in catalog.capabilities)
  }

  /** The problem is really there in the role. A code that is blank hides every other problem. */
  predicate Has(catalog: Catalog, code: string, role: Role, allowWildcard: bool, q: Problem) {
    if Normalize(code) == "" then q == InvalidRoleCode
    else ShapeProblem(catalog, code, role, q) || GrantProblem(catalog, Granted(catalog, role), allowWildcard, q)
  }

  /** Where the problem is reported: by the code as written or as normalised. */
  function Complaint(code: string, problem: Problem): Detail {
    var n := Normalize(code);
    var field :=
      match problem
      case RoleCodeNotUppercase => RoleField(code)
      case InvalidRoleCode => RoleField(if n == "" then code else n)
      case InvalidScope => ScopeField(n)
      case UnknownCapability => CapabilitiesField(n)
      case WildcardForbidden => PermissionsField(n)
      case UnknownPermission => PermissionsField(n)
      case TooManyPermissions => PermissionsField(n)
      case EmptyRole => RoleField(n)
      case UnsupportedVersion => VersionField
      case TooManyRoles => RolesField;
    Detail(field, problem)
  }

  /** A complaint names the role by its code, as normalised, or as written if that is what is wrong. */
  lemma ComplaintNames(code: string, problem: Problem)
    requires Normalize(code) != ""
    ensures var d, n := Complaint(code, problem), Normalize(code);
            && d.problem == problem
            && (problem == RoleCodeNotUppercase ==> d.field == RoleField(code))
            && (problem in {InvalidRoleCode, EmptyRole} ==> d.field == RoleField(n))
            && (problem == InvalidScope ==> d.field == ScopeField(n))
            && (problem == UnknownCapability ==> d.field == CapabilitiesField(n))
            && (problem in {WildcardForbidden, UnknownPermission, TooManyPermissions} ==>
                  d.field == PermissionsField(n))
  {
  }

  ghost predicate RoleViolation(catalog: Catalog, code: string, role: Role, allowWildcard: bool, d: Detail) {
    Has(catalog, code, role, allowWildcard, d.problem) && d == Complaint(code, d.problem)
  }

  ghost predicate Violation(catalog: Catalog, doc: Document, allowWildcard: bool, d: Detail) {
    || (d == Detail(VersionField, UnsupportedVersion) && doc.version != 0 && doc.version != SCHEMA_VERSION)
    || (d == Detail(RolesField, TooManyRoles) && |doc.roles| > MAX_ROLES)
    || exists code :: code in doc.roles && RoleViolation(catalog, code, doc.roles[code], allowWildcard, d)
  }

  // ------------------------------------------------------------------ what an acceptable document is

  predicate ShapeAcceptable(catalog: Catalog, code: string, role: Role) {
    && RoleCodeShape(Normalize(code)) && Normalize(code) == Trim(code)
    && KnownScope(ScopeOf(role))
    && forall c :: c in role.capabilities ==> c in catalog.capabilities
  }

  predicate GrantsAcceptable(catalog: Catalog, granted: set<string>, allowWildcard: bool) {
    && (forall p :: p in granted ==> !Ungrantable(catalog, p))
    && ("*" in granted ==> allowWildcard)
    && 0 < |granted| <= MAX_PERMS_PER_ROLE
  }

  predicate RoleAcceptable(catalog: Catalog, code: string, role: Role, allowWildcard: bool) {
    ShapeAcceptable(catalog, code, role) && GrantsAcceptable(catalog, Granted(catalog, role), allowWildcard)
  }

  predicate Acceptable(catalog: Catalog, doc: Document, allowWildcard: bool) {
    && (doc.version == 0 || doc.version == SCHEMA_VERSION)
    && |doc.roles| <= MAX_ROLES
    && forall code :: code in doc.roles ==> RoleAcceptable(catalog, code, doc.roles[code], allowWildcard)
  }

  /** A letter, then at most fifteen letters, digits and underscores; letters are upper-case. */
  predicate SpeltLikeACode(n: string) {
    && 1 <= |n| <= 16 && 'A' <= n[0] <= 'Z'
    && forall i :: 0 <= i < |n| ==> 'A' <= n[i] <= 'Z' || '0' <= n[i] <= '9' || n[i] == '_'
  }

  /** What is asked of a role, in its own words: its code and scope ... */
  ghost predicate WellNamed(catalog: Catalog, code: string, role: Role) {
    var n, scope := Upper(Trim(code)), Lower(Trim(role.scope));
    && SpeltLikeACode(n) && Trim(code) == n
    && scope in {"global", "customer", "team"}
    && (forall c :: c in role.capabilities ==> c in catalog.capabilities)
  }

  /** ... and what it grants. */
  ghost predicate WellGranted(catalog: Catalog, role: Role, allowWildcard: bool) {
    && (exists p :: Grants(catalog, role, p))
    && (forall p :: Grants(catalog, role, p) ==> if p == "*" then allowWildcard else p in catalog.permissions)
    && |Granted(catalog, role)| <= 64
  }

  lemma WellNamedIff(catalog: Catalog, code: string, role: Role)
    ensures ShapeAcceptable(catalog, code, role) <==> WellNamed(catalog, code, role)
  {
  }

  lemma WellGrantedIff(catalog: Catalog, role: Role, allowWildcard: bool)
    ensures GrantsAcceptable(catalog, Granted(catalog, role), allowWildcard)
            <==> WellGranted(catalog, role, allowWildcard)
  {
    var granted := Granted(catalog, role);
    forall p ensures p in granted <==> Grants(catalog, role, p) {
      GrantedIff(catalog, role, p);
    }
    assert granted != {} <==> exists p :: p in granted;
  }

  /** A document is acceptable exactly if its version is unset or 1, it has at most 128 roles, and each of
      them is in order. */
  lemma AcceptableMeans(catalog: Catalog, doc: Document, allowWildcard: bool)
    ensures Acceptable(catalog, doc, allowWildcard)
            <==> && doc.version in {0, 1} && |doc.roles| <= 128
                 && forall code :: code in doc.roles ==>
                      WellNamed(catalog, code, doc.roles[code]) && WellGranted(catalog, doc.roles[code], allowWildcard)
  {
    forall code | code in doc.roles
      ensures RoleAcceptable(catalog, code, doc.roles[code], allowWildcard)
              <==> WellNamed(catalog, code, doc.roles[code]) && WellGranted(catalog, doc.roles[code], allowWildcard)
    {
      WellNamedIff(catalog, code, doc.roles[code]);
      WellGrantedIff(catalog, doc.roles[code], allowWildcard);
    }
  }

  lemma HasShapeProblemIff(catalog: Catalog, code: string, role: Role, allowWildcard: bool, q: Problem)
    requires Normalize(code) != ""
    requires q.RoleCodeNotUppercase? || q.InvalidRoleCode? || q.InvalidScope? || q.UnknownCapability?
    ensures Has(catalog, code, role, allowWildcard, q) <==> ShapeProblem(catalog, code, role, q)
  {
  }

  lemma HasGrantProblemIff(catalog: Catalog, code: string, role: Role, allowWildcard: bool, q: Problem)
    requires Normalize(code) != ""
    requires q.WildcardForbidden? || q.UnknownPermission? || q.TooManyPermissions? || q.EmptyRole?
    ensures Has(catalog, code, role, allowWildcard, q)
            <==> GrantProblem(catalog, Granted(catalog, role), allowWildcard, q)
  {
  }

  lemma CodeShapeIff(n: string)
    ensures RoleCodeShape(n) <==> SpeltLikeACode(n)
  {
  }

  /** What each problem of a role that has a code means, in its own words: those of its code ... */
  lemma CodeProblemsMean(catalog: Catalog, code: string, role: Role, allowWildcard: bool)
    requires Normalize(code) != ""
    ensures Has(catalog, code, role, allowWildcard, RoleCodeNotUppercase) <==> Upper(Trim(code)) != Trim(code)
    ensures Has(catalog, code, role, allowWildcard, InvalidRoleCode) <==> !SpeltLikeACode(Upper(Trim(code)))
  {
    HasShapeProblemIff(catalog, code, role, allowWildcard, RoleCodeNotUppercase);
    HasShapeProblemIff(catalog, code, role, allowWildcard, InvalidRoleCode);
    CodeShapeIff(Normalize(code));
  }

  /** ... of its scope and capabilities ... */
  lemma NameProblemsMean(catalog: Catalog, code: string, role: Role, allowWildcard: bool)
    requires Normalize(code) != ""
    ensures Has(catalog, code, role, allowWildcard, InvalidScope)
            <==> Lower(Trim(role.scope)) !in {"global", "customer", "team"}
    ensures Has(catalog, code, role, allowWildcard, UnknownCapability)
            <==> exists c :: c in role.capabilities && c !in catalog.capabilities
  {
    HasShapeProblemIff(catalog, code, role, allowWildcard, InvalidScope);
    HasShapeProblemIff(catalog, code, role, allowWildcard, UnknownCapability);
  }

  /** ... and of what it grants. */
  lemma GrantProblemsMean(catalog: Catalog, code: string, role: Role, allowWildcard: bool)
    requires Normalize(code) != ""
    ensures Has(catalog, code, role, allowWildcard, WildcardForbidden)
            <==> Grants(catalog, role, "*") && !allowWildcard
    ensures Has(catalog, code, role, allowWildcard, UnknownPermission)
            <==> exists p :: Grants(catalog, role, p) && p != "*" && p !in catalog.permissions
    ensures Has(catalog, code, role, allowWildcard, TooManyPermissions) <==> |Granted(catalog, role)| > 64
    ensures Has(catalog, code, role, allowWildcard, EmptyRole) <==> forall p :: !Grants(catalog, role, p)
  {
    HasGrantProblemIff(catalog, code, role, allowWildcard, WildcardForbidden);
    HasGrantProblemIff(catalog, code, role, allowWildcard, UnknownPermission);
    HasGrantProblemIff(catalog, code, role, allowWildcard, TooManyPermissions);
    HasGrantProblemIff(catalog, code, role, allowWildcard, EmptyRole);
    GrantedIff(catalog, role, "*");
    UngrantableIff(catalog, role);
    NothingGrantedIff(catalog, role);
  }

  lemma UngrantableIff(catalog: Catalog, role: Role)
    ensures AnyUngrantable(catalog, Granted(catalog, role))
            <==> exists p :: Grants(catalog, role, p) && p != "*" && p !in catalog.permissions
  {
    forall p ensures p in Granted(catalog, role) && Ungrantable(catalog, p)
               <==> Grants(catalog, role, p) && p != "*" && p !in catalog.permissions
    {
      GrantedIff(catalog, role, p);
    }
  }

  lemma NothingGrantedIff(catalog: Catalog, role: Role)
    ensures Granted(catalog, role) == {} <==> forall p :: !Grants(catalog, role, p)
  {
    forall p ensures p in Granted(catalog, role) <==> Grants(catalog, role, p) {
      GrantedIff(catalog, role, p);
    }
    assert Granted(catalog, role) != {} ==> exists p :: p in Granted(catalog, role);
  }

  lemma ShapeIff(catalog: Catalog, code: string, role: Role)
    ensures ShapeAcceptable(catalog, code, role) <==> forall q :: !ShapeProblem(catalog, code, role, q)
  {
    if forall q :: !ShapeProblem(catalog, code, role, q) {
      assert !ShapeProblem(catalog, code, role, RoleCodeNotUppercase);
      assert !ShapeProblem(catalog, code, role, InvalidRoleCode);
      assert !ShapeProblem(catalog, code, role, InvalidScope) && !ShapeProblem(catalog, code, role, UnknownCapability);
    }
  }

  lemma GrantsIff(catalog: Catalog, granted: set<string>, allowWildcard: bool)
    ensures GrantsAcceptable(catalog, granted, allowWildcard)
            <==> forall q :: !GrantProblem(catalog, granted, allowWildcard, q)
  {
    if forall q :: !GrantProblem(catalog, granted, allowWildcard, q) {
      assert !GrantProblem(catalog, granted, allowWildcard, WildcardForbidden);
      assert !GrantProblem(catalog, granted, allowWildcard, UnknownPermission);
      assert !GrantProblem(catalog, granted, allowWildcard, TooManyPermissions);
      assert !GrantProblem(catalog, granted, allowWildcard, EmptyRole);
    }
  }

  lemma RoleAcceptableIffNoProblem(catalog: Catalog, code: string, role: Role, allowWildcard: bool)
    ensures RoleAcceptable(catalog, code, role, allowWildcard)
            <==> forall q :: !Has(catalog, code, role, allowWildcard, q)
  {
    ShapeIff(catalog, code, role);
    GrantsIff(catalog, Granted(catalog, role), allowWildcard);
    if Normalize(code) == "" {
      assert Has(catalog, code, role, allowWildcard, InvalidRoleCode);
    } else {
      forall q ensures Has(catalog, code, role, allowWildcard, q) <==>
        ShapeProblem(catalog, code, role, q) || GrantProblem(catalog, Granted(catalog, role), allowWildcard, q) {
      }
    }
  }

  /** A document is acceptable exactly when there is nothing to complain about. */
  lemma AcceptableIffNoViolation(catalog: Catalog, doc: Document, allowWildcard: bool)
    ensures Acceptable(catalog, doc, allowWildcard) <==> forall d :: !Violation(catalog, doc, allowWildcard, d)
  {
    forall code | code in doc.roles
      ensures RoleAcceptable(catalog, code, doc.roles[code], allowWildcard)
              <==> forall q :: !Has(catalog, code, doc.roles[code], allowWildcard, q)
    {
      RoleAcceptableIffNoProblem(catalog, code, doc.roles[code], allowWildcard);
    }
    if !Acceptable(catalog, doc, allowWildcard) {
      if doc.version != 0 && doc.version != SCHEMA_VERSION {
        assert Violation(catalog, doc, allowWildcard, Detail(VersionField, UnsupportedVersion));
      } else if |doc.roles| > MAX_ROLES {
        assert Violation(catalog, doc, allowWildcard, Detail(RolesField, TooManyRoles));
      } else {
        var code :| code in doc.roles && !RoleAcceptable(catalog, code, doc.roles[code], allowWildcard);
        var problem :| Has(catalog, code, doc.roles[code], allowWildcard, problem);
        assert RoleViolation(catalog, code, doc.roles[code], allowWildcard, Complaint(code, problem));
        assert Violation(catalog, doc, allowWildcard, Complaint(code, problem));
      }
    }
  }

  /** Allowing the wildcard never makes a complaint, and the stamps are not looked at: what passed
      once passes again when it is read back. */
  lemma AcceptableMonotone(catalog: Catalog, doc: Document, later: Document, allowWildcard: bool)
    requires Acceptable(catalog, doc, allowWildcard)
    requires later.roles == doc.roles && (later.version == doc.version || later.version == SCHEMA_VERSION)
    ensures Acceptable(catalog, later, true)
  {
    forall code | code in later.roles ensures RoleAcceptable(catalog, code, later.roles[code], true) {
      assert RoleAcceptable(catalog, code, doc.roles[code], allowWildcard);
    }
  }

  // ------------------------------------------------------------------ the validator

  /** Everything wrong with one role, and its compiled permissions. */
  method ValidateRole(catalog: Catalog, code: string, role: Role, allowWildcard: bool)
    returns (problems: seq<Problem>, perms: seq<string>)
    requires Normalize(code) != ""
    ensures forall q :: q in problems <==> Has(catalog, code, role, allowWildcard, q)
    ensures Lists(perms, Granted(catalog, role))
  {
    var shape := CheckShape(catalog, code, role);
    var grants;
    grants, perms := CheckGrants(catalog, role, allowWildcard);
    problems := shape + grants;
  }

  method CheckShape(catalog: Catalog, code: string, role: Role) returns (problems: seq<Problem>)
    ensures forall q :: q in problems <==> ShapeProblem(catalog, code, role, q)
  {
    var n := Normalize(code);
    problems := if n != Trim(code) then [RoleCodeNotUppercase] else [];
    if !RoleCodeShape(n) {
      problems := problems + [InvalidRoleCode];
    }
    if !KnownScope(ScopeOf(role)) {
      problems := problems + [InvalidScope];
    }
    var caps := CheckCapabilities(catalog, role.capabilities);
    problems := problems + caps;
  }

  method CheckGrants(catalog: Catalog, role: Role, allowWildcard: bool)
    returns (problems: seq<Problem>, perms: seq<string>)
    ensures forall q :: q in problems <==> GrantProblem(catalog, Granted(catalog, role), allowWildcard, q)
    ensures Lists(perms, Granted(catalog, role))
  {
    ghost var granted := Granted(catalog, role);
    var spelled := CheckSpelled(catalog, role.permissions, allowWildcard);
    forall q | Objectionable(catalog, Spelled(role.permissions), allowWildcard, q)
      ensures Objectionable(catalog, granted, allowWildcard, q) {
    }
    perms := CompileRolePermissions(catalog, role);
    var size: seq<Problem> := if |perms| > MAX_PERMS_PER_ROLE then [TooManyPermissions] else [];
    if |perms| == 0 {
      size := size + [EmptyRole];
    }
    var compiled := CheckCompiled(catalog, perms, granted, allowWildcard);
    problems := spelled + size + compiled;
  }

  method CheckCapabilities(catalog: Catalog, capabilities: seq<string>) returns (problems: seq<Problem>)
    ensures forall q :: q in problems <==>
              q == UnknownCapability && exists c :: c in capabilities && c !in catalog.capabilities
  {
    problems := [];
    for i := 0 to |capabilities|
      invariant forall q :: q in problems <==>
                  q == UnknownCapability && exists c :: c in capabilities[..i] && c !in catalog.capabilities
    {
      if capabilities[i] !in catalog.capabilities {
        problems := problems + [UnknownCapability];
      }
    }
  }

  /** The permissions spelled out in the role, as written; blank ones are skipped. */
  method CheckSpelled(catalog: Catalog, permissions: seq<string>, allowWildcard: bool) returns (problems: seq<Problem>)
    ensures forall q :: q in problems <==> Objectionable(catalog, Spelled(permissions), allowWildcard, q)
  {
    problems := [];
    assert Spelled([]) == {};
    for i := 0 to |permissions|
      invariant forall q :: q in problems <==> Objectionable(catalog, Spelled(permissions[..i]), allowWildcard, q)
    {
      var p := Trim(permissions[i]);
      SpelledSnoc(permissions, i);
      if p != "" {
        if p == "*" {
          if !allowWildcard {
            problems := problems + [WildcardForbidden];
          }
        } else if p !in catalog.permissions {
          assert Ungrantable(catalog, p);
          problems := problems + [UnknownPermission];
        }
      }
    }
    assert permissions[..|permissions|] == permissions;
  }

  lemma SpelledSnoc(permissions: seq<string>, i: nat)
    requires i < |permissions|
    ensures var p := Trim(permissions[i]);
            Spelled(permissions[..i + 1]) == Spelled(permissions[..i]) + if p == "" then {} else {p}
  {
    assert permissions[..i + 1] == permissions[..i] + [permissions[i]];
  }

  /** The compiled list is checked again: capabilities could expand to anything. */
  method CheckCompiled(catalog: Catalog, perms: seq<string>, ghost granted: set<string>, allowWildcard: bool)
    returns (problems: seq<Problem>)
    requires Lists(perms, granted)
    ensures forall q :: q in problems <==> Objectionable(catalog, granted, allowWildcard, q)
  {
    problems := [];
    ghost var seen: set<string> := {};
    for i := 0 to |perms|
      invariant seen == set p | p in perms[..i]
      invariant forall q :: q in problems <==> Objectionable(catalog, seen, allowWildcard, q)
    {
      var p := perms[i];
      seen := seen + {p};
      if p == "*" && !allowWildcard {
        problems := problems + [WildcardForbidden];
      } else if p != "*" && p !in catalog.permissions {
        assert Ungrantable(catalog, p);
        problems := problems + [UnknownPermission];
      }
    }
    assert seen == granted;
  }

  function Complaints(code: string, problems: seq<Problem>): seq<Detail> {
    seq(|problems|, i requires 0 <= i < |problems| => Complaint(code, problems[i]))
  }

  lemma ComplaintsAre(catalog: Catalog, code: string, role: Role, allowWildcard: bool, problems: seq<Problem>)
    requires forall q :: q in problems <==> Has(catalog, code, role, allowWildcard, q)
    ensures forall d :: d in Complaints(code, problems) <==> RoleViolation(catalog, code, role, allowWildcard, d)
  {
    forall d | RoleViolation(catalog, code, role, allowWildcard, d) ensures d in Complaints(code, problems) {
      var i :| 0 <= i < |problems| && problems[i] == d.problem;
      assert Complaints(code, problems)[i] == d;
    }
  }

  /** Codes as they are after reading a file. */
  predicate CanonicalCodes(roles: map<string, Role>) {
    forall code :: code in roles ==> Normalize(code) == code
  }

  /** Every role has its compiled list, under its code; a blank code has none. */
  ghost predicate Compiles(catalog: Catalog, roles: map<string, Role>, compiled: map<string, seq<string>>) {
    CompilesSome(catalog, roles, roles.Keys, compiled)
  }

  ghost predicate CompilesSome(catalog: Catalog, roles: map<string, Role>, codes: set<string>,
                               compiled: map<string, seq<string>>) {
    forall code :: code in codes && code in roles && code != "" ==>
      code in compiled && Lists(compiled[code], Granted(catalog, roles[code]))
  }

  ghost predicate Found(catalog: Catalog, roles: map<string, Role>, codes: set<string>, allowWildcard: bool,
                        d: Detail) {
    exists code :: code in roles && code in codes && RoleViolation(catalog, code, roles[code], allowWildcard, d)
  }

  ghost predicate FoundSoFar(catalog: Catalog, roles: map<string, Role>, codes: set<string>, allowWildcard: bool,
                             header: seq<Detail>, errs: seq<Detail>) {
    forall d :: d in errs <==> d in header || Found(catalog, roles, codes, allowWildcard, d)
  }

  lemma FoundMore(catalog: Catalog, roles: map<string, Role>, codes: set<string>, code: string, allowWildcard: bool,
                  header: seq<Detail>, errs: seq<Detail>, more: seq<Detail>)
    requires code in roles && FoundSoFar(catalog, roles, codes, allowWildcard, header, errs)
    requires forall d :: d in more <==> RoleViolation(catalog, code, roles[code], allowWildcard, d)
    ensures FoundSoFar(catalog, roles, codes + {code}, allowWildcard, header, errs + more)
  {
    forall d ensures d in errs + more <==> d in header || Found(catalog, roles, codes + {code}, allowWildcard, d) {
      FoundOneMore(catalog, roles, codes, code, allowWildcard, d);
    }
  }

  lemma FoundOneMore(catalog: Catalog, roles: map<string, Role>, codes: set<string>, code: string, allowWildcard: bool,
                     d: Detail)
    requires code in roles
    ensures Found(catalog, roles, codes + {code}, allowWildcard, d)
            <==> Found(catalog, roles, codes, allowWildcard, d)
                 || RoleViolation(catalog, code, roles[code], allowWildcard, d)
  {
  }

  /** The complaints are exactly the true ones, in whatever order the roles are walked. */
  method ValidateDocument(catalog: Catalog, doc: Document, allowWildcard: bool)
    returns (errs: seq<Detail>, compiled: map<string, seq<string>>)
    ensures forall d :: d in errs <==> Violation(catalog, doc, allowWildcard, d)
    ensures CanonicalCodes(doc.roles) ==> Compiles(catalog, doc.roles, compiled)
  {
    errs := [];
    if doc.version != 0 && doc.version != SCHEMA_VERSION {
      errs := errs + [Detail(VersionField, UnsupportedVersion)];
    }
    if |doc.roles| > MAX_ROLES {
      errs := errs + [Detail(RolesField, TooManyRoles)];
    }
    ghost var header := errs;
    compiled := map[];
    var todo := doc.roles.Keys;
    while todo != {}
      invariant todo <= doc.roles.Keys
      invariant FoundSoFar(catalog, doc.roles, doc.roles.Keys - todo, allowWildcard, header, errs)
      invariant CanonicalCodes(doc.roles) ==> CompilesSome(catalog, doc.roles, doc.roles.Keys - todo, compiled)
    {
      var code :| code in todo;
      var more;
      more, compiled := ValidateOne(catalog, doc.roles, doc.roles.Keys - todo, code, allowWildcard, compiled);
      assert doc.roles.Keys - (todo - {code}) == (doc.roles.Keys - todo) + {code};
      FoundMore(catalog, doc.roles, doc.roles.Keys - todo, code, allowWildcard, header, errs, more);
      errs, todo := errs + more, todo - {code};
    }
  }

  method ValidateOne(catalog: Catalog, roles: map<string, Role>, ghost codes: set<string>, code: string,
                     allowWildcard: bool, compiled: map<string, seq<string>>)
    returns (errs: seq<Detail>, compiled': map<string, seq<string>>)
    requires code in roles && (CanonicalCodes(roles) ==> CompilesSome(catalog, roles, codes, compiled))
    ensures forall d :: d in errs <==> RoleViolation(catalog, code, roles[code], allowWildcard, d)
    ensures CanonicalCodes(roles) ==> CompilesSome(catalog, roles, codes + {code}, compiled')
  {
    var problems, n := [InvalidRoleCode], Normalize(code);
    compiled' := compiled;
    if n != "" {
      var perms;
      problems, perms := ValidateRole(catalog, code, roles[code], allowWildcard);
      compiled' := compiled[n := perms];
    }
    ComplaintsAre(catalog, code, roles[code], allowWildcard, problems);
    errs := Complaints(code, problems);
  }
}
