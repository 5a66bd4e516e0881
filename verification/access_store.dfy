/** The role store: the roles file on disk, the current document, and the authorization policy. */
module AccessStore {
  import opened Options
  import opened Surroundings
  import opened AccessText
  import opened AccessCompile
  import opened AccessValidate
  import opened AccessProtocol
  import opened AccessDocument

  /** The part of the policy that the role store writes. `userSnaps` caches permissions by user. */
  class Policy {
    var rolePerms: map<string, set<string>>
    var roleScope: map<string, string>
    var userSnaps: map<string, set<string>>

    constructor ()
      ensures Valid() && Grants() == map[] && userSnaps == map[]
    {
      rolePerms, roleScope, userSnaps := map[], map[], map[];
    }

    ghost predicate Valid()
      reads this
    {
      rolePerms.Keys == roleScope.Keys
    }

    ghost function Grants(): map<string, Grant>
      requires Valid()
      reads this
    {
      map role | role in rolePerms :: Grant(roleScope[role], rolePerms[role])
    }

    method SetRole(role: string, scope: string, permissions: seq<string>)
      requires Valid()
      modifies this`rolePerms, this`roleScope
      ensures Valid() && Grants() == old(Grants())[role := Grant(scope, set p | p in permissions)]
    {
      rolePerms := rolePerms[role := set p | p in permissions];
      roleScope := roleScope[role := scope];
    }

    method Reload()
      modifies this`userSnaps
      ensures userSnaps == map[]
    {
      userSnaps := map[];
    }
  }

  datatype Outcome =
    | Done(revision: int)
    | TooLarge | Unparsable | Invalid(errs: seq<Detail>)
    | RevisionConflict | ReservedRole | CounterError | RolesInUse(codes: seq<string>)
    | WriteFailed | ReadFailed

  /** The reason given for a refusal is true of the request. */
  ghost predicate RightlyRefused(cfg: Config, current: Document, req: Request, why: Outcome) {
    match why
    case TooLarge => |req.data| > MAX_FILE_BYTES
    case Unparsable => cfg.parse(req.data).None?
    case Invalid(errs) => exists doc, d ::
      ReadsAs(cfg, req.data, doc) && d in errs && Violation(cfg.catalog, doc, req.allowWildcard, d)
    case RevisionConflict => Conflicts(current, req)
    case ReservedRole =>
      RESERVED in current.roles && exists doc :: ReadsAs(cfg, req.data, doc) && RESERVED !in doc.roles
    case CounterError =>
      req.counter.CounterFails? && exists doc :: ReadsAs(cfg, req.data, doc) && Removed(current, doc) != {}
    case RolesInUse(codes) => exists doc, code ::
      ReadsAs(cfg, req.data, doc) && code in Removed(current, doc) && code in codes && InUse(req.counter, code)
    case _ => false
  }

  class RolesStore {
    const cfg: Config
    const pathAllowed: bool
    const policy: Policy
    var doc: Document
    /** The roles file, the file being written beside it, and the backup. */
    var primary: Option<string>
    var pending: Option<string>
    var backup: Option<string>
    /** The primary file after each file operation: where a crash could leave it. */
    ghost var trace: seq<Option<string>>

    constructor (cfg: Config, pathAllowed: bool, policy: Policy, primary: Option<string>)
      requires policy.Valid()
      ensures Valid() && this.cfg == cfg && this.policy == policy
      ensures Abstract() == State(primary, NO_DOCUMENT, policy.Grants())
    {
      this.cfg, this.pathAllowed, this.policy, this.primary := cfg, pathAllowed, policy, primary;
      doc, pending, backup, trace := NO_DOCUMENT, None, None, [];
    }

    ghost predicate Valid()
      reads this, policy
    {
      policy.Valid() && CanonicalCodes(doc.roles)
    }

    ghost function Abstract(): State
      requires Valid()
      reads this, policy
    {
      State(primary, doc, policy.Grants())
    }

    /** Validate again, set every role in the policy, drop its cached snapshots, replace the document. */
    method ApplyParsed(next: Document) returns (ok: bool)
      requires Valid() && CanonicalCodes(next.roles)
      modifies this`doc, policy
      ensures Valid() && (ok <==> Acceptable(cfg.catalog, next, true))
      ensures ok ==> policy.userSnaps == map[]
      ensures ok ==> Abstract() == State(primary, next, Installed(RulesOf(cfg), old(policy.Grants()), next.roles))
      ensures !ok ==> Abstract() == old(Abstract())
    {
      var errs, compiled := ValidateDocument(cfg.catalog, next, true);
      AcceptableIffNoViolation(cfg.catalog, next, true);
      if |errs| > 0 {
        assert errs[0] in errs;
        return false;
      }
      forall code | code in next.roles ensures Ready(cfg.catalog, code, next.roles[code], compiled) {
        AcceptedIsReady(cfg.catalog, next, compiled, code);
      }
      InstallRoles(next, compiled);
      policy.Reload();
      doc := next;
      return true;
    }

    method InstallRoles(next: Document, compiled: map<string, seq<string>>)
      requires Valid() && forall code :: code in next.roles ==> Ready(cfg.catalog, code, next.roles[code], compiled)
      modifies policy`rolePerms, policy`roleScope
      ensures policy.Valid() && policy.Grants() == Installed(RulesOf(cfg), old(policy.Grants()), next.roles)
    {
      ghost var rules, before := RulesOf(cfg), policy.Grants();
      var todo := next.roles.Keys;
      while todo != {}
        invariant todo <= next.roles.Keys
        invariant policy.Valid() && policy.Grants() == Installed(rules, before, Without(next.roles, todo))
      {
        var code :| code in todo;
        InstallOne(code, next.roles[code], compiled);
        InstalledOneMore(rules, before, next.roles, todo, code);
        todo := todo - {code};
      }
      assert Without(next.roles, todo) == next.roles;
    }

    method InstallOne(code: string, role: Role, compiled: map<string, seq<string>>)
      requires policy.Valid() && Ready(cfg.catalog, code, role, compiled)
      modifies policy`rolePerms, policy`roleScope
      ensures policy.Valid() && policy.Grants() == old(policy.Grants())[code := GrantOf(cfg.catalog, role)]
    {
      var scope := ScopeOf(role);
      if !KnownScope(scope) {
        scope := "customer";
      }
      policy.SetRole(Normalize(code), scope, compiled[Normalize(code)]);
    }

    /** Marshal, write beside the file, keep a backup if that works, rename into place. */
    method WriteAtomic(next: Document) returns (ok: bool, ghost trouble: bool)
      modifies this`primary, this`pending, this`backup, this`trace
      ensures ok ==> cfg.marshal(next).Some? && primary == cfg.marshal(next)
      ensures !ok ==> primary == old(primary)
      ensures ok <==> pathAllowed && cfg.marshal(next).Some? && !trouble
      ensures old(trace) <= trace
      ensures forall k :: |old(trace)| <= k < |trace| ==>
                trace[k] == old(primary) || (cfg.marshal(next).Some? && trace[k] == cfg.marshal(next))
    {
      var mkdirFailed := Happens();
      trouble := mkdirFailed;
      if !pathAllowed || mkdirFailed || cfg.marshal(next).None? {
        return false, trouble;
      }
      var data := cfg.marshal(next).value;
      var written := WritePending(data);
      trouble := !written;
      if !written {
        return false, trouble;
      }
      var readable := Happens();
      if readable && primary.Some? && |primary.value| > 0 {
        WriteBackup(primary.value);
      }
      var renamed := Happens();
      trouble := !renamed;
      if !renamed {
        return false, trouble;
      }
      primary, pending := pending, None;
      trace := trace + [primary];
      ok := true;
    }

    /** A write that fails, or is cut short, leaves anything in the file it writes to, and only there. */
    method WritePending(data: string) returns (ok: bool)
      modifies this`pending, this`trace
      ensures ok ==> pending == Some(data)
      ensures trace == old(trace) + [primary]
    {
      ok := Happens();
      if ok {
        pending := Some(data);
      } else {
        pending := *;
      }
      trace := trace + [primary];
    }

    method WriteBackup(data: string)
      modifies this`backup, this`trace
      ensures trace == old(trace) + [primary]
    {
      var ok := Happens();
      if ok {
        backup := Some(data);
      } else {
        backup := *;
      }
      trace := trace + [primary];
    }

    /** Every content the primary file had since `start` is a place a restart can recover from. */
    ghost predicate OnlyCrashPoints(start: seq<Option<string>>, s: State, req: Request)
      reads this`trace
    {
      start <= trace && forall k :: |start| <= k < |trace| ==> CrashPoint(RulesOf(cfg), s, req, trace[k])
    }

    /** Validate, check the revision and the removed roles; then stamp, write and apply. A request is refused
        for a reason, or what it asks for cannot be written, or it is applied. */
    method ApplyBytes(req: Request) returns (r: Outcome, ghost trouble: bool)
      requires Valid() && FaithfulYaml(cfg)
      modifies this`doc, this`primary, this`pending, this`backup, this`trace, policy
      ensures Valid()
      ensures r.Done? ==> Applied(RulesOf(cfg), old(Abstract()), req, Abstract()) && policy.userSnaps == map[]
      ensures r.Done? ==> r.revision == doc.revision
      ensures !r.Done? ==> Abstract() == old(Abstract())
      ensures r.Done? || r == WriteFailed || RightlyRefused(cfg, old(doc), req, r)
      ensures r == WriteFailed ==> trouble || !pathAllowed || Unprintable(cfg, old(doc), req)
      ensures OnlyCrashPoints(old(trace), old(Abstract()), req)
    {
      trouble := false;
      var read, verdict := Check(req);
      if verdict.Some? {
        return verdict.value, trouble;
      }
      r, trouble := Commit(req, read);
    }

    /** Whatever becomes of the write, what is in the file can be recovered from. */
    method WriteStamped(ghost req: Request, ghost read: Document, next: Document)
      returns (ok: bool, ghost trouble: bool)
      requires Valid() && Accepts(RulesOf(cfg), doc, req, read) && next == Stamped(doc, read, req)
      modifies this`primary, this`pending, this`backup, this`trace
      ensures ok ==> cfg.marshal(next).Some? && primary == cfg.marshal(next)
      ensures !ok ==> primary == old(primary)
      ensures ok <==> pathAllowed && cfg.marshal(next).Some? && !trouble
      ensures OnlyCrashPoints(old(trace), old(Abstract()), req)
    {
      ok, trouble := WriteAtomic(next);
      StampedCrashPoints(cfg, old(Abstract()), req, read, old(trace), trace);
    }

    /** The writing half. The second validation cannot fail. */
    method Commit(req: Request, read: Document) returns (r: Outcome, ghost trouble: bool)
      requires Valid() && Accepts(RulesOf(cfg), doc, req, read)
      modifies this`doc, this`primary, this`pending, this`backup, this`trace, policy
      ensures Valid()
      ensures r.Done? ==> Applied(RulesOf(cfg), old(Abstract()), req, Abstract()) && policy.userSnaps == map[]
      ensures r.Done? ==> r.revision == doc.revision
      ensures r.Done? || (r == WriteFailed && Abstract() == old(Abstract()))
      ensures r.Done? <==> pathAllowed && cfg.marshal(Stamped(old(doc), read, req)).Some? && !trouble
      ensures OnlyCrashPoints(old(trace), old(Abstract()), req)
    {
      var next := Stamped(doc, read, req);
      ghost var was := Abstract();
      StampedAcceptable(cfg, req, read, next);
      var written;
      written, trouble := WriteStamped(req, read, next);
      if !written {
        return WriteFailed, trouble;
      }
      var ok := ApplyParsed(next);
      assert ok;
      StampedIsApplied(cfg, was, req, read, Abstract());
      r := Done(doc.revision);
    }

    /** Everything that is looked at before the first write. */
    method Check(req: Request) returns (read: Document, verdict: Option<Outcome>)
      requires Valid()
      ensures verdict.None? ==> Accepts(RulesOf(cfg), doc, req, read)
      ensures verdict.Some? ==> RightlyRefused(cfg, doc, req, verdict.value)
    {
      read := NO_DOCUMENT;
      if |req.data| > MAX_FILE_BYTES {
        return read, Some(TooLarge);
      }
      var raw := cfg.parse(req.data);
      if raw.None? {
        return read, Some(Unparsable);
      }
      read := ToDocument(raw.value);
      DecodedIsCanonical(raw.value, read);
      var errs, compiled := ValidateDocument(cfg.catalog, read, req.allowWildcard);
      AcceptableIffNoViolation(cfg.catalog, read, req.allowWildcard);
      if |errs| > 0 {
        assert errs[0] in errs;
        return read, Some(Invalid(errs));
      }
      if Conflicts(doc, req) {
        return read, Some(RevisionConflict);
      }
      verdict := EnsureRolesNotRemoved(doc, read, req.counter);
    }

    /** Reading the file at start-up or on request. */
    method LoadFromDisk() returns (r: Outcome, ghost trouble: bool)
      requires Valid()
      modifies this`doc, policy
      ensures Valid()
      ensures r.Done? ==> Loaded(RulesOf(cfg), old(Abstract()), Abstract()) && policy.userSnaps == map[]
      ensures !r.Done? ==> Abstract() == old(Abstract())
      ensures r == TooLarge ==> primary.Some? && |primary.value| > MAX_FILE_BYTES
      ensures r == Unparsable ==> primary.Some? && cfg.parse(primary.value).None?
      ensures r.Invalid? ==>
                primary.Some? && exists d :: ReadsAs(cfg, primary.value, d) && !Acceptable(cfg.catalog, d, true)
      ensures r.Done? || r == ReadFailed || r == TooLarge || r == Unparsable || r.Invalid?
      ensures r == ReadFailed <==> trouble || primary.None?
    {
      var failed := Happens();
      trouble := failed;
      if failed || primary.None? {
        return ReadFailed, trouble;
      }
      if |primary.value| > MAX_FILE_BYTES {
        return TooLarge, trouble;
      }
      var raw := cfg.parse(primary.value);
      if raw.None? {
        return Unparsable, trouble;
      }
      var read := ToDocument(raw.value);
      DecodedIsCanonical(raw.value, read);
      var ok := ApplyParsed(read);
      if !ok {
        return Invalid([]), trouble;
      }
      r := Done(doc.revision);
    }
  }

  /** The document that the request leads to does not print. */
  ghost predicate Unprintable(cfg: Config, current: Document, req: Request) {
    exists read :: Accepts(RulesOf(cfg), current, req, read) && cfg.marshal(Stamped(current, read, req)).None?
  }

  /** What is compiled under the role's code is what the role grants. */
  ghost predicate Ready(catalog: Catalog, code: string, role: Role, compiled: map<string, seq<string>>) {
    && Normalize(code) == code && code in compiled && KnownScope(ScopeOf(role))
    && (set p | p in compiled[code]) == Granted(catalog, role)
  }

  lemma AcceptedIsReady(catalog: Catalog, doc: Document, compiled: map<string, seq<string>>, code: string)
    requires CanonicalCodes(doc.roles) && Compiles(catalog, doc.roles, compiled) && code in doc.roles
    requires Acceptable(catalog, doc, true)
    ensures Ready(catalog, code, doc.roles[code], compiled)
  {
    assert RoleAcceptable(catalog, code, doc.roles[code], true);
  }

  ghost function Without(roles: map<string, Role>, todo: set<string>): map<string, Role> {
    map code | code in roles && code !in todo :: roles[code]
  }

  lemma InstalledOneMore(rules: Rules, before: map<string, Grant>, roles: map<string, Role>, todo: set<string>,
                         code: string)
    requires code in roles
    ensures Installed(rules, before, Without(roles, todo - {code}))
         == Installed(rules, before, Without(roles, todo))[code := rules.grant(roles[code])]
  {
  }

  /** Writing and installing the stamped document is the protocol's step. */
  lemma StampedIsApplied(cfg: Config, s: State, req: Request, read: Document, s': State)
    requires Accepts(RulesOf(cfg), s.doc, req, read) && s'.doc == Stamped(s.doc, read, req)
    requires s'.primary.Some? && cfg.marshal(s'.doc) == s'.primary
    requires s'.policy == Installed(RulesOf(cfg), s.policy, s'.doc.roles)
    ensures Applied(RulesOf(cfg), s, req, s')
  {
    assert Produces(RulesOf(cfg), s.doc, req, s'.doc, s'.primary.value);
  }

  /** Contents that are the old file or the stamped document are places a restart can recover from. */
  lemma StampedCrashPoints(cfg: Config, s: State, req: Request, read: Document, start: seq<Option<string>>,
                           trace: seq<Option<string>>)
    requires Accepts(RulesOf(cfg), s.doc, req, read) && start <= trace
    requires forall k :: |start| <= k < |trace| ==>
               trace[k] == s.primary ||
               (cfg.marshal(Stamped(s.doc, read, req)).Some? && trace[k] == cfg.marshal(Stamped(s.doc, read, req)))
    ensures forall k :: |start| <= k < |trace| ==> CrashPoint(RulesOf(cfg), s, req, trace[k])
  {
    forall k | |start| <= k < |trace| ensures CrashPoint(RulesOf(cfg), s, req, trace[k]) {
      if trace[k] != s.primary {
        assert Produces(RulesOf(cfg), s.doc, req, Stamped(s.doc, read, req), trace[k].value);
      }
    }
  }

  lemma StampedAcceptable(cfg: Config, req: Request, read: Document, next: Document)
    requires ReadsAs(cfg, req.data, read) && Acceptable(cfg.catalog, read, req.allowWildcard) && Restamped(read, next)
    ensures Acceptable(cfg.catalog, next, true) && CanonicalCodes(next.roles)
  {
    DecodedIsCanonical(cfg.parse(req.data).value, read);
    AcceptableMonotone(cfg.catalog, read, next, req.allowWildcard);
  }

  /** Role A must stay; other roles may go unless a user is known to hold one. Codes are compared
      normalised; the counter is asked only if something is removed. */
  method EnsureRolesNotRemoved(current: Document, next: Document, counter: Counter) returns (r: Option<Outcome>)
    requires CanonicalCodes(current.roles) && CanonicalCodes(next.roles)
    ensures r.None? <==> RemovalAllowed(current, next, counter)
    ensures r.Some? ==>
      || (r.value == ReservedRole && RESERVED in current.roles && RESERVED !in next.roles)
      || (r.value == CounterError && counter.CounterFails? && Removed(current, next) != {})
      || (r.value.RolesInUse? &&
          exists code :: code in r.value.codes && code in Removed(current, next) && InUse(counter, code))
  {
    var removed: seq<string> := [];
    var todo := current.roles.Keys;
    while todo != {}
      invariant todo <= current.roles.Keys
      invariant forall code :: code in removed <==> code in Removed(current, next) && code !in todo
      invariant RESERVED in current.roles && RESERVED !in todo ==> RESERVED in next.roles
    {
      var code :| code in todo;
      todo := todo - {code};
      if Normalize(code) == RESERVED {
        if code !in next.roles {
          return Some(ReservedRole);
        }
      } else {
        var found := HasCode(next.roles, Normalize(code));
        if !found {
          removed := removed + [Normalize(code)];
        }
      }
    }
    if removed == [] {
      assert Removed(current, next) == {};
      return None;
    }
    assert removed[0] in Removed(current, next);
    r := RolesHeld(removed, counter);
  }

  method HasCode(roles: map<string, Role>, n: string) returns (found: bool)
    requires CanonicalCodes(roles)
    ensures found <==> n in roles
  {
    var todo := roles.Keys;
    while todo != {}
      invariant todo <= roles.Keys && (n in roles ==> n in todo)
    {
      var k :| k in todo;
      if Normalize(k) == n {
        return true;
      }
      todo := todo - {k};
    }
    return false;
  }

  method RolesHeld(removed: seq<string>, counter: Counter) returns (r: Option<Outcome>)
    ensures r.None? <==> !counter.CounterFails? && forall code :: code in removed ==> !InUse(counter, code)
    ensures r.Some? ==>
      || (r.value == CounterError && counter.CounterFails?)
      || (r.value.RolesInUse? && exists code :: code in r.value.codes && code in removed && InUse(counter, code))
  {
    match counter
    case NoCounter => r := None;
    case CounterFails => r := Some(CounterError);
    case Counts(users) =>
      var held: seq<string> := [];
      for i := 0 to |removed|
        invariant forall code :: code in held <==> code in removed[..i] && InUse(counter, code)
      {
        if removed[i] in users && users[removed[i]] > 0 {
          held := held + [removed[i]];
        }
      }
      if held == [] {
        return None;
      }
      assert held[0] in held;
      r := Some(RolesInUse(held));
  }
}
