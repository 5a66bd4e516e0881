/** Applying, reloading and recovering the roles file, as steps between states: what is in the primary
    file, the document in memory and the grants in the authorization policy. */
module AccessProtocol {
  import opened Options
  import opened MachineIntegers
  import opened AccessText
  import opened AccessCompile
  import opened AccessValidate

  const MAX_FILE_BYTES := 256 * 1024

  /** The role that cannot be removed. */
  const RESERVED := "A"

  datatype Grant = Grant(scope: string, permissions: set<string>)

  /** What the protocol needs to know of documents: which of them a file can be read as, which are
      acceptable with or without wildcards, how they are printed, what a role grants. */
  datatype Rules = Rules(
    readable: (string, Document) -> bool,
    acceptable: (Document, bool) -> bool,
    marshal: Document -> Option<string>,
    grant: Role -> Grant)

  /** Only the stamps differ. */
  predicate Restamped(doc: Document, stamped: Document) {
    stamped == doc.(revision := stamped.revision, updatedAt := stamped.updatedAt, updatedBy := stamped.updatedBy)
  }

  ghost predicate ReadsBack(rules: Rules, doc: Document, out: string) {
    forall d :: rules.readable(out, d) <==> d == doc
  }

  /** A document that was read, stamped and printed reads back as itself; allowing wildcards never
      makes a document unacceptable, nor do stamps; two readings of one file have the same codes. */
  ghost predicate Sound(rules: Rules) {
    && (forall data, doc, stamped, out ::
          rules.readable(data, doc) && Restamped(doc, stamped) && rules.marshal(stamped) == Some(out)
          ==> ReadsBack(rules, stamped, out))
    && (forall doc, stamped, wildcard ::
          rules.acceptable(doc, wildcard) && Restamped(doc, stamped) ==> rules.acceptable(stamped, true))
    && (forall data, doc, doc' :: rules.readable(data, doc) && rules.readable(data, doc')
          ==> doc.roles.Keys == doc'.roles.Keys && doc.revision == doc'.revision)
    && (forall data, doc :: rules.readable(data, doc) ==> InInt64(doc.revision))
  }

  // ------------------------------------------------------------------ states

  datatype State = State(primary: Option<string>, doc: Document, policy: map<string, Grant>)

  /** The document of a store that has loaded nothing. */
  const NO_DOCUMENT := Document(0, 0, "", "", map[])

  ghost predicate PolicyFollows(rules: Rules, policy: map<string, Grant>, roles: map<string, Role>) {
    forall code :: code in roles ==> code in policy && policy[code] == rules.grant(roles[code])
  }

  /** Disk, memory and policy say the same about the roles of the current document. */
  ghost predicate Agrees(rules: Rules, s: State) {
    && s.primary.Some? && rules.readable(s.primary.value, s.doc)
    && rules.acceptable(s.doc, true)
    && PolicyFollows(rules, s.policy, s.doc.roles)
  }

  /** Roles are set one by one and never unset: grants of removed roles stay. */
  function Installed(rules: Rules, policy: map<string, Grant>, roles: map<string, Role>): map<string, Grant> {
    policy + map code | code in roles :: rules.grant(roles[code])
  }

  // ------------------------------------------------------------------ applying a document

  /** How many users hold each role: not asked, failing, or a count per role. */
  datatype Counter = NoCounter | CounterFails | Counts(users: map<string, int>)

  datatype Request = Request(
    data: string, expected: int, actor: string, allowWildcard: bool, now: string, counter: Counter)

  predicate Conflicts(current: Document, req: Request) {
    req.expected > 0 && current.revision > 0 && req.expected != current.revision
  }

  function Removed(current: Document, next: Document): set<string> {
    set code | code in current.roles && code != RESERVED && code !in next.roles
  }

  predicate InUse(counter: Counter, code: string) {
    counter.Counts? && code in counter.users && counter.users[code] > 0
  }

  predicate RemovalAllowed(current: Document, next: Document, counter: Counter) {
    && (RESERVED in current.roles ==> RESERVED in next.roles)
    && (Removed(current, next) != {} ==> !counter.CounterFails?)
    && forall code :: code in Removed(current, next) ==> !InUse(counter, code)
  }

  function NextRevision(current: int, requested: int): int {
    if requested <= current then WrapI(current + 1) else requested
  }

  function Stamped(current: Document, doc: Document, req: Request): Document {
    doc.(revision := NextRevision(current.revision, doc.revision), updatedAt := req.now, updatedBy := Trim(req.actor))
  }

  /** The request's data can be read as `doc`, and nothing speaks against applying it. */
  ghost predicate Accepts(rules: Rules, current: Document, req: Request, doc: Document) {
    && |req.data| <= MAX_FILE_BYTES
    && rules.readable(req.data, doc)
    && rules.acceptable(doc, req.allowWildcard)
    && !Conflicts(current, req)
    && RemovalAllowed(current, doc, req.counter)
  }

  /** The role was there, is not role A, and is not there any more. */
  predicate Dropped(current: Document, doc: Document, code: string) {
    code in current.roles && code != "A" && code !in doc.roles
  }

  /** A request is accepted exactly if its data are at most 256 KiB and can be read as an acceptable
      document, the expected revision is none, or nothing is loaded, or it is the current one, role A
      stays if it was there, and, if other roles are dropped, the counter answers and knows no user of
      any of them. */
  lemma AcceptsIff(rules: Rules, current: Document, req: Request, doc: Document)
    ensures Accepts(rules, current, req, doc)
            <==> && |req.data| <= 262_144 && rules.readable(req.data, doc) && rules.acceptable(doc, req.allowWildcard)
                 && (req.expected <= 0 || current.revision <= 0 || req.expected == current.revision)
                 && ("A" in current.roles ==> "A" in doc.roles)
                 && (forall code :: Dropped(current, doc, code) ==>
                       match req.counter
                       case NoCounter => true
                       case CounterFails => false
                       case Counts(users) => !(code in users && users[code] > 0))
  {
    forall code ensures code in Removed(current, doc) <==> Dropped(current, doc, code) {
    }
  }

  /** What is applied is what was asked for, with a new revision, the time, and who did it; the policy has
      the new grants and, for other roles, the old ones. */
  lemma AppliedIsTheRequest(rules: Rules, s: State, req: Request, s': State) returns (doc: Document)
    requires Applied(rules, s, req, s')
    ensures rules.readable(req.data, doc) && rules.acceptable(doc, req.allowWildcard)
    ensures s'.doc.roles == doc.roles && s'.doc.version == doc.version
    ensures s'.doc.updatedAt == req.now && s'.doc.updatedBy == Trim(req.actor)
    ensures doc.revision > s.doc.revision ==> s'.doc.revision == doc.revision
    ensures doc.revision <= s.doc.revision < MAX_INT64 && s.doc.revision >= MIN_INT64 ==>
              s'.doc.revision == s.doc.revision + 1
    ensures s'.policy.Keys == s.policy.Keys + doc.roles.Keys
    ensures forall code :: code in s'.policy ==>
              s'.policy[code] == if code in doc.roles then rules.grant(doc.roles[code]) else s.policy[code]
  {
    doc :| Accepts(rules, s.doc, req, doc) && s'.doc == Stamped(s.doc, doc, req) && rules.marshal(s'.doc) == s'.primary;
  }

  /** The document and file contents an accepted request leads to. */
  ghost predicate Produces(rules: Rules, current: Document, req: Request, next: Document, data: string) {
    exists doc ::
      Accepts(rules, current, req, doc) && next == Stamped(current, doc, req) && rules.marshal(next) == Some(data)
  }

  ghost predicate Applied(rules: Rules, s: State, req: Request, s': State) {
    && s'.primary.Some? && Produces(rules, s.doc, req, s'.doc, s'.primary.value)
    && s'.policy == Installed(rules, s.policy, s'.doc.roles)
  }

  /** What the primary file can hold if the process dies somewhere in the apply. */
  ghost predicate CrashPoint(rules: Rules, s: State, req: Request, primary: Option<string>) {
    primary == s.primary || (primary.Some? && exists next :: Produces(rules, s.doc, req, next, primary.value))
  }

  /** Reading the file succeeds with `doc`. */
  ghost predicate Loadable(rules: Rules, primary: Option<string>, doc: Document) {
    && primary.Some? && |primary.value| <= MAX_FILE_BYTES
    && rules.readable(primary.value, doc)
    && rules.acceptable(doc, true)
  }

  ghost predicate Loaded(rules: Rules, s: State, s': State) {
    && s'.primary == s.primary && Loadable(rules, s.primary, s'.doc)
    && s'.policy == Installed(rules, s.policy, s'.doc.roles)
  }

  // ------------------------------------------------------------------ single steps

  /** The re-validation after the write cannot fail, and afterwards the three agree, whatever was
      there before. */
  lemma ApplyEstablishesAgreement(rules: Rules, s: State, req: Request, s': State)
    requires Sound(rules) && Applied(rules, s, req, s')
    ensures Agrees(rules, s')
  {
    var doc :| Accepts(rules, s.doc, req, doc) && s'.doc == Stamped(s.doc, doc, req) &&
               rules.marshal(s'.doc) == s'.primary;
    ProducedReadsBack(rules, s.doc, req, s'.doc, s'.primary.value);
  }

  lemma ProducedReadsBack(rules: Rules, current: Document, req: Request, next: Document, data: string)
    requires Sound(rules) && Produces(rules, current, req, next, data)
    ensures rules.acceptable(next, true)
    ensures forall doc :: rules.readable(data, doc) <==> doc == next
  {
    var doc :| Accepts(rules, current, req, doc) && next == Stamped(current, doc, req) &&
               rules.marshal(next) == Some(data);
    assert rules.readable(req.data, doc) && Restamped(doc, next);
    assert ReadsBack(rules, next, data);
  }

  lemma LoadEstablishesAgreement(rules: Rules, s: State, s': State)
    requires Loaded(rules, s, s')
    ensures Agrees(rules, s')
  {
  }

  /** A process that dies anywhere in an apply and starts again finds a complete document, the one
      before or the one after, and reads exactly that, provided the file is within the size limit. */
  lemma RestartAfterCrash(rules: Rules, s: State, req: Request, primary: Option<string>)
    requires Sound(rules) && Agrees(rules, s) && CrashPoint(rules, s, req, primary)
    ensures primary.Some? && ((exists doc :: Loadable(rules, primary, doc)) <==> |primary.value| <= MAX_FILE_BYTES)
    ensures primary != s.primary ==>
      exists next ::
        Produces(rules, s.doc, req, next, primary.value) && forall doc :: Loadable(rules, primary, doc) ==> doc == next
  {
    if primary == s.primary {
      if |primary.value| <= MAX_FILE_BYTES {
        assert Loadable(rules, primary, s.doc);
      }
    } else {
      var next :| Produces(rules, s.doc, req, next, primary.value);
      ProducedReadsBack(rules, s.doc, req, next, primary.value);
      if |primary.value| <= MAX_FILE_BYTES {
        assert Loadable(rules, primary, next);
      }
    }
  }

  /** The size of what is written is not checked: a file over the limit was applied and is in force,
      but cannot be loaded again. */
  lemma OversizedApplyDoesNotReload(rules: Rules, s: State, req: Request, s': State)
    requires Sound(rules) && Applied(rules, s, req, s')
    ensures (forall doc :: !Loadable(rules, s'.primary, doc)) <==> |s'.primary.value| > MAX_FILE_BYTES
  {
    ApplyEstablishesAgreement(rules, s, req, s');
    if |s'.primary.value| <= MAX_FILE_BYTES {
      assert Loadable(rules, s'.primary, s'.doc);
    }
  }

  lemma AppliedRevision(rules: Rules, s: State, req: Request, s': State) returns (requested: int)
    requires Sound(rules) && Applied(rules, s, req, s')
    ensures InInt64(requested) && s'.doc.revision == NextRevision(s.doc.revision, requested)
  {
    var doc :| Accepts(rules, s.doc, req, doc) && s'.doc == Stamped(s.doc, doc, req);
    requested := doc.revision;
  }

  lemma NextRevisionGrowsIff(current: int, requested: int)
    requires InInt64(current) && InInt64(requested)
    ensures var next := NextRevision(current, requested);
            && InInt64(next)
            && (next > current <==> current < MAX_INT64)
            && (current == MAX_INT64 ==> next == MIN_INT64)
  {
  }

  /** The revision grows exactly when the current one is not the largest 64-bit integer. */
  lemma RevisionGrowsIff(rules: Rules, s: State, req: Request, s': State)
    requires Sound(rules) && InInt64(s.doc.revision) && Applied(rules, s, req, s')
    ensures InInt64(s'.doc.revision)
    ensures s'.doc.revision > s.doc.revision <==> s.doc.revision < MAX_INT64
  {
    var requested := AppliedRevision(rules, s, req, s');
    NextRevisionGrowsIff(s.doc.revision, requested);
  }

  /** At the largest revision the counter wraps, and the expected revision is not looked at again:
      no request is refused for it. */
  lemma WrappedRevisionDropsTheGuard(rules: Rules, s: State, req: Request, s': State, other: Request)
    requires Sound(rules) && s.doc.revision == MAX_INT64 && Applied(rules, s, req, s')
    ensures s'.doc.revision == MIN_INT64 && !Conflicts(s'.doc, other)
  {
    var requested := AppliedRevision(rules, s, req, s');
    NextRevisionGrowsIff(s.doc.revision, requested);
  }

  /** It can be reached at once: an accepted document may ask for it. */
  lemma LargestRevisionIsReached(rules: Rules, s: State, req: Request, doc: Document) returns (s': State)
    requires Accepts(rules, s.doc, req, doc) && rules.marshal(Stamped(s.doc, doc, req)).Some?
    requires doc.revision == MAX_INT64 && s.doc.revision < MAX_INT64
    ensures Applied(rules, s, req, s') && s'.doc.revision == MAX_INT64
  {
    var next := Stamped(s.doc, doc, req);
    s' := State(rules.marshal(next), next, Installed(rules, s.policy, next.roles));
    assert Produces(rules, s.doc, req, next, s'.primary.value);
  }
}
