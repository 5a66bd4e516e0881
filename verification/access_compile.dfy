/** Compiling a role to the permissions it grants. */
module AccessCompile {
  import opened AccessText

  datatype Role = Role(
    scope: string, builtin: bool, displayLabel: string, capabilities: seq<string>, permissions: seq<string>)

  /** The capability catalogue: what each capability expands to, and the listed ids. */
  datatype Catalog = Catalog(expansion: map<string, seq<string>>, capabilities: set<string>, permissions: set<string>)

  function FromCapabilities(catalog: Catalog, capabilities: seq<string>): set<string> {
    set c, p | c in capabilities && c in catalog.expansion && p in catalog.expansion[c] :: p
  }

  function Spelled(permissions: seq<string>): set<string> {
    set q | q in permissions && Trim(q) != "" :: Trim(q)
  }

  function Granted(catalog: Catalog, role: Role): set<string> {
    FromCapabilities(catalog, role.capabilities) + Spelled(role.permissions)
  }

  /** The role spells the permission out, or has a capability that the catalogue expands to it. */
  ghost predicate Grants(catalog: Catalog, role: Role, p: string) {
    || (exists q :: q in role.permissions && Trim(q) == p && p != "")
    || (exists c :: c in role.capabilities && c in catalog.expansion && p in catalog.expansion[c])
  }

  lemma GrantedIff(catalog: Catalog, role: Role, p: string)
    ensures p in Granted(catalog, role) <==> Grants(catalog, role, p)
  {
  }

  ghost predicate Lists(out: seq<string>, granted: set<string>) {
    StrictlySorted(out) && |out| == |granted| && forall p :: p in out <==> p in granted
  }

  /** The sorted list of exactly the granted permissions, each once. */
  method CompileRolePermissions(catalog: Catalog, role: Role) returns (out: seq<string>)
    ensures Lists(out, Granted(catalog, role))
    ensures StrictlySorted(out) && forall p :: p in out <==> Grants(catalog, role, p)
  {
    var granted: set<string> := {};
    for i := 0 to |role.capabilities|
      invariant granted == FromCapabilities(catalog, role.capabilities[..i])
    {
      var c := role.capabilities[i];
      ghost var before := granted;
      if c in catalog.expansion {
        granted := AddAll(granted, catalog.expansion[c]);
      }
      CapabilitiesSnoc(catalog, role.capabilities, i);
    }
    assert role.capabilities[..|role.capabilities|] == role.capabilities;
    ghost var base := granted;
    for i := 0 to |role.permissions|
      invariant granted == base + Spelled(role.permissions[..i])
    {
      var p := Trim(role.permissions[i]);
      if p != "" {
        granted := granted + {p};
      }
      assert role.permissions[..i + 1] == role.permissions[..i] + [role.permissions[i]];
    }
    assert role.permissions[..|role.permissions|] == role.permissions;
    out := Sort(granted);
    ListsTheGrants(catalog, role, out);
  }

  lemma ListsTheGrants(catalog: Catalog, role: Role, out: seq<string>)
    requires Lists(out, Granted(catalog, role))
    ensures StrictlySorted(out) && forall p :: p in out <==> Grants(catalog, role, p)
  {
    forall p ensures p in out <==> Grants(catalog, role, p) {
      GrantedIff(catalog, role, p);
    }
  }

  method AddAll(granted: set<string>, ps: seq<string>) returns (out: set<string>)
    ensures forall p :: p in out <==> p in granted || p in ps
  {
    out := granted;
    for k := 0 to |ps|
      invariant forall p :: p in out <==> p in granted || p in ps[..k]
    {
      out := out + {ps[k]};
    }
  }

  lemma CapabilitiesSnoc(catalog: Catalog, cs: seq<string>, i: nat)
    requires i < |cs|
    ensures forall p :: p in FromCapabilities(catalog, cs[..i + 1]) <==>
              p in FromCapabilities(catalog, cs[..i]) || (cs[i] in catalog.expansion && p in catalog.expansion[cs[i]])
  {
    assert cs[..i + 1] == cs[..i] + [cs[i]];
  }

  /** The set's elements in byte order, whatever order they are taken out in. */
  method Sort(granted: set<string>) returns (out: seq<string>)
    ensures Lists(out, granted)
  {
    out := [];
    var todo := granted;
    while todo != {}
      invariant todo <= granted && Lists(out, granted - todo)
    {
      var p :| p in todo;
      var next := InsertSorted(out, p);
      assert granted - (todo - {p}) == (granted - todo) + {p};
      out, todo := next, todo - {p};
    }
    assert granted - todo == granted;
  }

  /** Map order cannot show: two compilations of one role give the same list. */
  lemma CompilationUnique(out: seq<string>, out': seq<string>, granted: set<string>)
    requires Lists(out, granted) && Lists(out', granted)
    ensures out == out'
  {
    SortedListUnique(out, out');
  }
}
