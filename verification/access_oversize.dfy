/** A request within the size limit whose document is printed beyond it. */
module AccessOversize {
  import opened Options
  import opened MachineIntegers
  import opened AccessText
  import opened AccessCompile
  import opened AccessValidate
  import opened AccessProtocol
  import opened AccessDocument

  const PERMISSION := "team:read"
  const COPIES: nat := 25_000

  /** The size of a list of strings with `extra` bytes of layout around each. */
  function Size(items: seq<string>, extra: nat): nat {
    if items == [] then 0 else Size(items[..|items| - 1], extra) + |items[|items| - 1]| + extra
  }

  function Copies(item: string, n: nat): seq<string> {
    if n == 0 then [] else Copies(item, n - 1) + [item]
  }

  lemma {:induction false} CopiesAre(item: string, n: nat)
    ensures |Copies(item, n)| == n && forall i :: 0 <= i < n ==> Copies(item, n)[i] == item
  {
    if n > 0 {
      CopiesAre(item, n - 1);
    }
  }

  lemma {:induction false} CopiesSize(item: string, n: nat, extra: nat)
    ensures Size(Copies(item, n), extra) == n * (|item| + extra)
  {
    if n > 0 {
      CopiesSize(item, n - 1, extra);
      CopiesAre(item, n - 1);
      assert Copies(item, n)[..n - 1] == Copies(item, n - 1);
      assert n * (|item| + extra) == (n - 1) * (|item| + extra) + (|item| + extra);
    }
  }

  /** A document that holds role A alone. */
  function OnlyRoleA(permissions: seq<string>): Document {
    Document(SCHEMA_VERSION, 0, "", "", map[RESERVED := Role("team", false, "", [], permissions)])
  }

  /** Words that YAML needs no quotes for: lower-case letters, with colons inside. */
  predicate Plain(word: string) {
    && word != "" && 'a' <= word[|word| - 1] <= 'z'
    && forall i :: 0 <= i < |word| ==> 'a' <= word[i] <= 'z' || word[i] == ':'
  }

  predicate AllPlain(words: seq<string>) {
    forall i :: 0 <= i < |words| ==> Plain(words[i])
  }

  /** What YAML's two list styles are assumed to cost. In flow style a list of plain words can be written
      with one byte besides each; in block style, which is how documents are printed, each item has a
      dash and a blank before it and a line end behind it. */
  ghost predicate ListStyles(cfg: Config) {
    && (forall words :: AllPlain(words) ==> ShortForm(cfg, words))
    && (forall doc: Document {:trigger cfg.marshal(doc)} :: InInt64(doc.revision) ==> LongForm(cfg, doc))
  }

  /** The document prints, and each of its lists costs what block style does. */
  ghost predicate LongForm(cfg: Config, doc: Document) {
    && cfg.marshal(doc).Some?
    && forall code :: code in doc.roles ==> |cfg.marshal(doc).value| >= Size(doc.roles[code].permissions, 3)
  }

  ghost predicate ShortForm(cfg: Config, words: seq<string>) {
    exists data :: |data| <= 200 + Size(words, 1) && cfg.parse(data) == Some(OnlyRoleA(words))
  }

  lemma PlainWords()
    ensures Trim(PERMISSION) == PERMISSION && PERMISSION != "*"
    ensures Normalize(RESERVED) == RESERVED && Trim(RESERVED) == RESERVED && RoleCodeShape(RESERVED)
    ensures Lower(Trim("team")) == "team"
  {
    assert Trim("team") == "team" && Trim(RESERVED) == RESERVED;
    assert Lower("team") == "team" && Upper(RESERVED) == RESERVED;
  }

  lemma {:induction false} CopiesSpelled(n: nat)
    requires n > 0
    ensures Spelled(Copies(PERMISSION, n)) == {PERMISSION}
  {
    PlainWords();
    CopiesAre(PERMISSION, n);
    var words := Copies(PERMISSION, n);
    assert words[0] in words;
  }

  lemma {:induction false} CopiesAcceptable(catalog: Catalog, n: nat)
    requires PERMISSION in catalog.permissions && n > 0
    ensures Acceptable(catalog, OnlyRoleA(Copies(PERMISSION, n)), false)
  {
    var role := OnlyRoleA(Copies(PERMISSION, n)).roles[RESERVED];
    PlainWords();
    CopiesSpelled(n);
    assert FromCapabilities(catalog, []) == {};
    assert Granted(catalog, role) == {PERMISSION};
    OneGrantIsAcceptable(catalog, role);
  }

  lemma OneGrantIsAcceptable(catalog: Catalog, role: Role)
    requires PERMISSION in catalog.permissions && Granted(catalog, role) == {PERMISSION}
    requires role.scope == "team" && role.capabilities == []
    ensures RoleAcceptable(catalog, RESERVED, role, false)
  {
    PlainWords();
    assert GrantsAcceptable(catalog, {PERMISSION}, false);
  }

  lemma OnlyRoleADecodes(permissions: seq<string>)
    ensures Decoded(OnlyRoleA(permissions), OnlyRoleA(permissions))
  {
    PlainWords();
    CanonicalDecodesToItself(OnlyRoleA(permissions), OnlyRoleA(permissions));
  }

  lemma {:induction false} CopiesAreShort(cfg: Config, n: nat)
    requires ListStyles(cfg)
    ensures ShortForm(cfg, Copies(PERMISSION, n))
  {
    CopiesArePlain(n);
  }

  lemma {:induction false} CopiesArePlain(n: nat)
    ensures AllPlain(Copies(PERMISSION, n))
  {
    CopiesAre(PERMISSION, n);
    assert Plain(PERMISSION);
  }

  /** The request is within the limit. */
  lemma SmallRequest(cfg: Config) returns (data: string)
    requires ListStyles(cfg)
    ensures |data| <= MAX_FILE_BYTES && ReadsAs(cfg, data, OnlyRoleA(Copies(PERMISSION, COPIES)))
  {
    var permissions := Copies(PERMISSION, COPIES);
    CopiesSize(PERMISSION, COPIES, 1);
    CopiesAreShort(cfg, COPIES);
    data :| |data| <= 200 + Size(permissions, 1) && cfg.parse(data) == Some(OnlyRoleA(permissions));
    OnlyRoleADecodes(permissions);
  }

  /** Applying what is read from small data and printed beyond the limit. */
  lemma AppliedBeyondLimit(rules: Rules, s: State, data: string, doc: Document) returns (req: Request, s': State)
    requires |data| <= MAX_FILE_BYTES && rules.readable(data, doc) && rules.acceptable(doc, false)
    requires RESERVED in doc.roles && InInt64(s.doc.revision) && InInt64(doc.revision)
    requires forall stamped :: Restamped(doc, stamped) && InInt64(stamped.revision) ==>
               rules.marshal(stamped).Some? && |rules.marshal(stamped).value| > MAX_FILE_BYTES
    ensures |req.data| <= MAX_FILE_BYTES && Applied(rules, s, req, s')
    ensures |s'.primary.value| > MAX_FILE_BYTES && forall d :: !Loadable(rules, s'.primary, d)
  {
    req := Request(data, 0, "", false, "", NoCounter);
    assert Accepts(rules, s.doc, req, doc);
    var next := Stamped(s.doc, doc, req);
    NextRevisionGrowsIff(s.doc.revision, doc.revision);
    assert Restamped(doc, next);
    s' := State(rules.marshal(next), next, Installed(rules, s.policy, next.roles));
    assert Produces(rules, s.doc, req, next, s'.primary.value);
  }

  lemma PrintedBeyondLimit(cfg: Config, stamped: Document)
    requires ListStyles(cfg) && Restamped(OnlyRoleA(Copies(PERMISSION, COPIES)), stamped) && InInt64(stamped.revision)
    ensures cfg.marshal(stamped).Some? && |cfg.marshal(stamped).value| > MAX_FILE_BYTES
  {
    CopiesSize(PERMISSION, COPIES, 3);
    assert stamped.roles[RESERVED].permissions == Copies(PERMISSION, COPIES);
  }

  /** From every state such a request is applied, and what it leaves in the file cannot be loaded. */
  lemma OversizedRequestExists(cfg: Config, s: State) returns (req: Request, s': State)
    requires FaithfulYaml(cfg) && ListStyles(cfg) && PERMISSION in cfg.catalog.permissions
    requires InInt64(s.doc.revision)
    ensures |req.data| <= MAX_FILE_BYTES && Applied(RulesOf(cfg), s, req, s')
    ensures |s'.primary.value| > MAX_FILE_BYTES && forall doc :: !Loadable(RulesOf(cfg), s'.primary, doc)
  {
    var doc, rules := OnlyRoleA(Copies(PERMISSION, COPIES)), RulesOf(cfg);
    var data := SmallRequest(cfg);
    CopiesAcceptable(cfg.catalog, COPIES);
    forall stamped | Restamped(doc, stamped) && InInt64(stamped.revision)
      ensures rules.marshal(stamped).Some? && |rules.marshal(stamped).value| > MAX_FILE_BYTES
    {
      PrintedBeyondLimit(cfg, stamped);
    }
    req, s' := AppliedBeyondLimit(rules, s, data, doc);
  }
}
