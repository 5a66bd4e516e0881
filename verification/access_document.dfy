/** The roles document: reading it from YAML and stamping it for writing. */
module AccessDocument {
  import opened Options
  import opened MachineIntegers
  import opened AccessText
  import opened AccessCompile
  import opened AccessValidate
  import opened AccessProtocol

  /** `doc` is what reading `raw` gives: version 0 means the current schema, role codes are
      normalised, and where several codes normalise alike one of their roles is kept. */
  ghost predicate Decoded(raw: Document, doc: Document) {
    && doc.version == (if raw.version == 0 then SCHEMA_VERSION else raw.version)
    && doc.revision == raw.revision && doc.updatedAt == raw.updatedAt && doc.updatedBy == raw.updatedBy
    && DecodedRoles(raw.roles, raw.roles.Keys, doc.roles)
  }

  ghost predicate DecodedRoles(raw: map<string, Role>, codes: set<string>, roles: map<string, Role>) {
    && (forall code :: code in codes ==> Normalize(code) in roles)
    && (forall n :: n in roles ==>
          exists code :: code in codes && code in raw && Normalize(code) == n && raw[code] == roles[n])
  }

  predicate Canonical(doc: Document) {
    doc.version != 0 && forall code :: code in doc.roles ==> Normalize(code) == code
  }

  lemma DecodedIsCanonical(raw: Document, doc: Document)
    requires Decoded(raw, doc)
    ensures Canonical(doc)
  {
    forall n | n in doc.roles ensures Normalize(n) == n {
      var code :| code in raw.roles && Normalize(code) == n && raw.roles[code] == doc.roles[n];
      NormalizeIdempotent(code);
    }
  }

  /** Reading back a document that was read before changes nothing. */
  lemma CanonicalDecodesToItself(doc: Document, doc': Document)
    requires Canonical(doc)
    ensures Decoded(doc, doc') <==> doc' == doc
  {
    if Decoded(doc, doc') {
      forall n | n in doc'.roles ensures n in doc.roles && doc.roles[n] == doc'.roles[n] {
        var code :| code in doc.roles && Normalize(code) == n && doc.roles[code] == doc'.roles[n];
      }
      assert doc'.roles == doc.roles;
    }
    forall n | n in doc.roles
      ensures exists code :: code in doc.roles && Normalize(code) == n && doc.roles[code] == doc.roles[n]
    {
      assert Normalize(n) == n;
    }
  }

  /** Two readings of one file have the same role codes and the same revision. */
  lemma SameCodes(raw: Document, doc: Document, doc': Document)
    requires Decoded(raw, doc) && Decoded(raw, doc')
    ensures doc.roles.Keys == doc'.roles.Keys && doc.revision == doc'.revision
  {
    forall n ensures n in doc.roles <==> n in doc'.roles {
      if n in doc.roles {
        var code :| code in raw.roles && Normalize(code) == n && raw.roles[code] == doc.roles[n];
      }
      if n in doc'.roles {
        var code :| code in raw.roles && Normalize(code) == n && raw.roles[code] == doc'.roles[n];
      }
    }
  }

  /** Reading role codes as written into a document. */
  method ToDocument(raw: Document) returns (doc: Document)
    ensures Decoded(raw, doc)
  {
    var roles: map<string, Role> := map[];
    var todo := raw.roles.Keys;
    while todo != {}
      invariant todo <= raw.roles.Keys && DecodedRoles(raw.roles, raw.roles.Keys - todo, roles)
    {
      var code :| code in todo;
      DecodedOneMore(raw.roles, raw.roles.Keys - todo, roles, code);
      roles := roles[Normalize(code) := raw.roles[code]];
      assert raw.roles.Keys - (todo - {code}) == (raw.roles.Keys - todo) + {code};
      todo := todo - {code};
    }
    assert raw.roles.Keys - todo == raw.roles.Keys;
    doc := raw.(version := if raw.version == 0 then SCHEMA_VERSION else raw.version, roles := roles);
  }

  lemma DecodedOneMore(raw: map<string, Role>, codes: set<string>, roles: map<string, Role>, code: string)
    requires DecodedRoles(raw, codes, roles) && code in raw
    ensures DecodedRoles(raw, codes + {code}, roles[Normalize(code) := raw[code]])
  {
    var n := Normalize(code);
    var roles' := roles[n := raw[code]];
    forall m | m in roles'
      ensures exists c :: c in codes + {code} && c in raw && Normalize(c) == m && raw[c] == roles'[m] {
      if m == n {
        assert Normalize(code) == m && raw[code] == roles'[m];
      } else {
        var c :| c in codes && c in raw && Normalize(c) == m && raw[c] == roles[m];
      }
    }
  }

  // ------------------------------------------------------------------ the rules of the store

  /** Parsing and printing YAML. `parse` leaves role codes as they are written. */
  datatype Config = Config(catalog: Catalog, parse: string -> Option<Document>, marshal: Document -> Option<string>)

  /** What is assumed of YAML: a printed document parses to itself; revisions are 64-bit integers. */
  ghost predicate FaithfulYaml(cfg: Config) {
    && (forall doc, data :: cfg.marshal(doc) == Some(data) ==> cfg.parse(data) == Some(doc))
    && (forall data, raw :: cfg.parse(data) == Some(raw) ==> InInt64(raw.revision))
  }

  ghost predicate ReadsAs(cfg: Config, data: string, doc: Document) {
    cfg.parse(data).Some? && Decoded(cfg.parse(data).value, doc)
  }

  function GrantOf(catalog: Catalog, role: Role): Grant {
    Grant(ScopeOf(role), Granted(catalog, role))
  }

  ghost function RulesOf(cfg: Config): Rules {
    Rules((data, doc) => ReadsAs(cfg, data, doc), (doc, wildcard) => Acceptable(cfg.catalog, doc, wildcard),
          cfg.marshal, role => GrantOf(cfg.catalog, role))
  }

  lemma StampedReadsBack(cfg: Config, data: string, doc: Document, stamped: Document, out: string)
    requires FaithfulYaml(cfg) && ReadsAs(cfg, data, doc) && Restamped(doc, stamped)
    requires cfg.marshal(stamped) == Some(out)
    ensures forall d :: ReadsAs(cfg, out, d) <==> d == stamped
  {
    DecodedIsCanonical(cfg.parse(data).value, doc);
    assert cfg.parse(out) == Some(stamped);
    forall d ensures ReadsAs(cfg, out, d) <==> d == stamped {
      CanonicalDecodesToItself(stamped, d);
    }
  }

  /** The store's rules are as the protocol needs them. */
  lemma RulesAreSound(cfg: Config)
    requires FaithfulYaml(cfg)
    ensures Sound(RulesOf(cfg))
  {
    var rules := RulesOf(cfg);
    forall data, doc, stamped, out |
      rules.readable(data, doc) && Restamped(doc, stamped) && rules.marshal(stamped) == Some(out)
      ensures forall d :: rules.readable(out, d) <==> d == stamped
    {
      StampedReadsBack(cfg, data, doc, stamped, out);
    }
    forall doc, stamped, wildcard | rules.acceptable(doc, wildcard) && Restamped(doc, stamped)
      ensures rules.acceptable(stamped, true)
    {
      AcceptableMonotone(cfg.catalog, doc, stamped, wildcard);
    }
    forall data, doc, doc' | rules.readable(data, doc) && rules.readable(data, doc')
      ensures doc.roles.Keys == doc'.roles.Keys && doc.revision == doc'.revision
    {
      SameCodes(cfg.parse(data).value, doc, doc');
    }
  }

  /** In a state in which disk, memory and policy agree, each role of the document is in force: its
      permissions are those it spells out and those of its capabilities, its scope is its own. */
  lemma InForce(cfg: Config, s: State, code: string, p: string)
    requires Agrees(RulesOf(cfg), s) && code in s.doc.roles
    ensures code in s.policy && s.policy[code].scope == Lower(Trim(s.doc.roles[code].scope))
    ensures p in s.policy[code].permissions <==> Grants(cfg.catalog, s.doc.roles[code], p)
  {
    GrantedIff(cfg.catalog, s.doc.roles[code], p);
  }
}
