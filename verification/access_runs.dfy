/** What holds over every run of applies, refusals, reloads and restarts after a crash. */
module AccessRuns {
  import opened Options
  import opened MachineIntegers
  import opened AccessValidate
  import opened AccessProtocol

  /** `Restart` is a process that died at some point of handling the request, and its successor,
      which loads the file if it can and otherwise starts with no document. */
  datatype Event = Apply(req: Request) | Refuse(req: Request) | Reload | Restart(req: Request)

  ghost predicate Next(rules: Rules, base: map<string, Grant>, s: State, e: Event, s': State) {
    match e
    case Apply(req) => Applied(rules, s, req, s')
    case Refuse(_) => s' == s
    case Reload => s' == s || Loaded(rules, s, s')
    case Restart(req) =>
      CrashPoint(rules, s, req, s'.primary) &&
      var started := State(s'.primary, NO_DOCUMENT, base);
      Loaded(rules, started, s') || (s' == started && forall doc :: !Loadable(rules, s'.primary, doc))
  }

  ghost predicate Run(rules: Rules, base: map<string, Grant>, ss: seq<State>, es: seq<Event>) {
    |ss| == |es| + 1 && forall k {:trigger es[k]} :: 0 <= k < |es| ==> Next(rules, base, ss[k], es[k], ss[k + 1])
  }

  ghost predicate Fits(primary: Option<string>) {
    primary.Some? ==> |primary.value| <= MAX_FILE_BYTES
  }

  /** The request that the event hands to the removal check reports a user holding the role. */
  predicate Holds(e: Event, code: string) {
    e.Apply? || e.Restart? ==>
      e.req.counter.Counts? && code in e.req.counter.users && e.req.counter.users[code] > 0
  }

  /** What one step may do to the revision and the roles. */
  ghost predicate Later(s: State, e: Event, s': State) {
    && (s.doc.revision < MAX_INT64 ==>
          s'.doc.revision >= s.doc.revision && (e.Apply? ==> s'.doc.revision > s.doc.revision))
    && forall code :: code in s.doc.roles && (code == RESERVED || Holds(e, code)) ==> code in s'.doc.roles
  }

  ghost predicate Sane(rules: Rules, s: State) {
    Agrees(rules, s) && InInt64(s.doc.revision)
  }

  lemma ProducedIsLater(rules: Rules, current: Document, req: Request, next: Document, data: string)
    requires Sound(rules) && InInt64(current.revision) && Produces(rules, current, req, next, data)
    ensures InInt64(next.revision)
    ensures current.revision < MAX_INT64 ==> next.revision > current.revision
    ensures forall code :: code in current.roles && (code == RESERVED || InUse(req.counter, code)) ==>
              code in next.roles
  {
    var doc :| Accepts(rules, current, req, doc) && next == Stamped(current, doc, req);
    NextRevisionGrowsIff(current.revision, doc.revision);
    forall code | code in current.roles && (code == RESERVED || InUse(req.counter, code)) ensures code in next.roles {
      assert code in Removed(current, doc) <==> code != RESERVED && code !in doc.roles;
    }
  }

  lemma ReloadIsLater(rules: Rules, s: State, doc: Document)
    requires Sound(rules) && Agrees(rules, s) && rules.readable(s.primary.value, doc)
    ensures doc.revision == s.doc.revision && doc.roles.Keys == s.doc.roles.Keys
  {
  }

  lemma RestartKeeps(rules: Rules, base: map<string, Grant>, s: State, req: Request, s': State)
    requires Sound(rules) && Sane(rules, s) && Next(rules, base, s, Restart(req), s') && Fits(s'.primary)
    ensures Sane(rules, s') && Later(s, Restart(req), s')
  {
    RestartAfterCrash(rules, s, req, s'.primary);
    assert Loadable(rules, s'.primary, s'.doc);
    if s'.primary == s.primary {
      ReloadIsLater(rules, s, s'.doc);
    } else {
      var next :| Produces(rules, s.doc, req, next, s'.primary.value) &&
                 forall doc :: Loadable(rules, s'.primary, doc) ==> doc == next;
      ProducedIsLater(rules, s.doc, req, next, s'.primary.value);
    }
  }

  lemma StepKeeps(rules: Rules, base: map<string, Grant>, s: State, e: Event, s': State)
    requires Sound(rules) && Sane(rules, s) && Next(rules, base, s, e, s') && Fits(s'.primary)
    ensures Sane(rules, s') && Later(s, e, s')
  {
    match e
    case Apply(req) =>
      ApplyEstablishesAgreement(rules, s, req, s');
      ProducedIsLater(rules, s.doc, req, s'.doc, s'.primary.value);
    case Refuse(_) =>
    case Reload =>
      if s' != s {
        ReloadIsLater(rules, s, s'.doc);
      }
    case Restart(req) =>
      RestartKeeps(rules, base, s, req, s');
  }

  /** Disk, memory and policy agree in every state of every run whose files stay within the size
      limit, crashes included. */
  lemma {:induction false} AlwaysAgrees(rules: Rules, base: map<string, Grant>, ss: seq<State>, es: seq<Event>, k: nat)
    requires Sound(rules) && Run(rules, base, ss, es) && Sane(rules, ss[0]) && k < |ss|
    requires forall i :: 0 <= i < |ss| ==> Fits(ss[i].primary)
    ensures Sane(rules, ss[k])
  {
    if k > 0 {
      AlwaysAgrees(rules, base, ss, es, k - 1);
      assert Next(rules, base, ss[k - 1], es[k - 1], ss[k]);
      StepKeeps(rules, base, ss[k - 1], es[k - 1], ss[k]);
    }
  }

  lemma StepIsLater(rules: Rules, base: map<string, Grant>, ss: seq<State>, es: seq<Event>, k: nat)
    requires Sound(rules) && Run(rules, base, ss, es) && Sane(rules, ss[0]) && k < |es|
    requires forall i :: 0 <= i < |ss| ==> Fits(ss[i].primary)
    ensures Later(ss[k], es[k], ss[k + 1])
  {
    AlwaysAgrees(rules, base, ss, es, k);
    StepKeeps(rules, base, ss[k], es[k], ss[k + 1]);
  }

  /** Revisions never fall while none of them is the largest integer. */
  lemma {:induction false} RevisionsGrow(rules: Rules, base: map<string, Grant>, ss: seq<State>, es: seq<Event>,
                                         i: nat, j: nat)
    requires Sound(rules) && Run(rules, base, ss, es) && Sane(rules, ss[0]) && i <= j < |ss|
    requires forall k :: 0 <= k < |ss| ==> Fits(ss[k].primary)
    requires forall k :: i <= k < j ==> ss[k].doc.revision != MAX_INT64
    ensures ss[i].doc.revision <= ss[j].doc.revision
    ensures i < j && es[i].Apply? ==> ss[i].doc.revision < ss[j].doc.revision
    decreases j - i
  {
    if i < j {
      StepIsLater(rules, base, ss, es, i);
      AlwaysAgrees(rules, base, ss, es, i);
      RevisionsGrow(rules, base, ss, es, i + 1, j);
    }
  }

  /** Of several applies that expect the same revision of a loaded document, at most one succeeds. */
  lemma AtMostOneWinner(rules: Rules, base: map<string, Grant>, ss: seq<State>, es: seq<Event>, i: nat, j: nat)
    requires Sound(rules) && Run(rules, base, ss, es) && Sane(rules, ss[0]) && i < j < |es|
    requires forall k :: 0 <= k < |ss| ==> Fits(ss[k].primary)
    requires forall k :: i <= k < j ==> ss[k].doc.revision != MAX_INT64
    requires es[i].Apply? && es[i].req.expected > 0 && ss[i].doc.revision > 0
    ensures es[j].Apply? ==> es[j].req.expected != es[i].req.expected
  {
    RevisionsGrow(rules, base, ss, es, i, j);
    assert Next(rules, base, ss[i], es[i], ss[i + 1]) && Next(rules, base, ss[j], es[j], ss[j + 1]);
  }

  /** Role A, and every role some user is known to hold throughout, is still there at the end. */
  lemma {:induction false} HeldRoleSurvives(rules: Rules, base: map<string, Grant>, ss: seq<State>, es: seq<Event>,
                                            code: string)
    requires Sound(rules) && Run(rules, base, ss, es) && Sane(rules, ss[0])
    requires forall k :: 0 <= k < |ss| ==> Fits(ss[k].primary)
    requires code in ss[0].doc.roles && (code == RESERVED || forall k :: 0 <= k < |es| ==> Holds(es[k], code))
    ensures code in ss[|es|].doc.roles && code in ss[|es|].policy
  {
    for k := 0 to |es|
      invariant code in ss[k].doc.roles
    {
      StepIsLater(rules, base, ss, es, k);
    }
    AlwaysAgrees(rules, base, ss, es, |es|);
  }

  /** A file over the limit is not loaded after a restart, and then neither the revision nor the
      removed roles are checked: any valid document is applied, without role A if it has none. */
  lemma OversizedRestartForgets(rules: Rules, base: map<string, Grant>, s: State, req: Request, s': State,
                                other: Request, doc: Document)
    requires Next(rules, base, s, Restart(req), s') && !Fits(s'.primary)
    ensures s'.doc == NO_DOCUMENT
    ensures Accepts(rules, s'.doc, other, doc) <==>
      |other.data| <= MAX_FILE_BYTES && rules.readable(other.data, doc) && rules.acceptable(doc, other.allowWildcard)
  {
    assert Removed(NO_DOCUMENT, doc) == {};
  }
}
