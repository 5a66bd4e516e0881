/** The rule worker: which rules a tick evaluates, when it may act, and the fire rows it inserts
    before acting. Times are in seconds. */
module AutomationWorker {
  import opened Options
  import opened Sequences
  import opened Surroundings
  import opened AutomationActions
  import opened AutomationFires
  import opened AutomationMatch

  const MINUTE := 60

  // ------------------------------------------------------------------ evaluation intervals

  const ALLOWED_INTERVALS: seq<int> := [5, 10, 15, 30, 60]

  /** Accepts exactly the allowed intervals at or above the floor, 15 standing in for an unset one. */
  method NormalizeEvalInterval(requested: int, floor: int) returns (minutes: int, ok: bool)
    ensures var r := if requested == 0 then 15 else requested;
            var f := if floor <= 0 then 15 else floor;
            ok <==> r >= f && r in ALLOWED_INTERVALS
    ensures ok ==> minutes == (if requested == 0 then 15 else requested) && EffectiveInterval(minutes) == minutes
  {
    var r, f := requested, floor;
    if r == 0 {
      r := 15;
    }
    if f <= 0 {
      f := 15;
    }
    if r < f {
      return 0, false;
    }
    var allowed := false;
    for i := 0 to |ALLOWED_INTERVALS|
      invariant allowed <==> r in ALLOWED_INTERVALS[..i]
    {
      if r == ALLOWED_INTERVALS[i] {
        allowed := true;
      }
    }
    if !allowed {
      return 0, false;
    }
    return r, true;
  }

  function EffectiveInterval(minutes: int): int {
    if minutes <= 0 then 15 else minutes
  }

  // ------------------------------------------------------------------ rules and the log

  /** A rule as stored. `badRow` marks one that cannot be decoded and is skipped. */
  datatype Rule = Rule(
    customer: Id,
    interval: int,
    cooldown: int,
    lastEvaluated: Option<int>,
    lastFired: Option<int>,
    actions: seq<Deed>,
    badRow: bool)

  predicate Due(rule: Rule, now: int) {
    && !rule.badRow
    && match rule.lastEvaluated
       case None => true
       case Some(t) => now - t >= EffectiveInterval(rule.interval) * MINUTE
  }

  predicate Cooling(rule: Rule, now: int) {
    rule.lastFired.Some? && now - rule.lastFired.value < rule.cooldown * MINUTE
  }

  /** What happened, for stating properties of whole histories. `saved` is whether the timestamp
      update that goes with the entry reached the database; `tick` numbers the worker's ticks. */
  datatype Entry =
    | Evaluated(rule: Id, tick: nat, now: int, saved: bool, interval: int)
    | Ran(rule: Id, tick: nat, now: int, fire: Fire, target: Target, deed: Deed, cooldown: int)
    | Completed(rule: Id, tick: nat, firedAt: int, saved: bool)

  /** What an entry promises about a later one: a saved evaluation keeps the rule quiet for its
      interval; after a match was applied to the end and that was saved, no later tick acts on the
      rule before the recorded time plus the cooldown; and no fire is acted on twice. */
  predicate Compatible(a: Entry, b: Entry) {
    match (a, b)
    case (Evaluated(r, _, now, saved, _), Evaluated(r', _, now', _, interval)) =>
      r == r' && saved ==> now' - now >= interval * MINUTE
    case (Completed(r, tick, firedAt, saved), Ran(r', tick', now, _, _, _, cooldown)) =>
      r == r' && saved && tick < tick' ==> now - firedAt >= cooldown * MINUTE
    case (Ran(_, _, _, fire, _, _, _), Ran(_, _, _, fire', _, _, _)) => fire != fire'
    case _ => true
  }

  ghost predicate Good(log: seq<Entry>) {
    forall i, j {:trigger Compatible(log[i], log[j])} :: 0 <= i < j < |log| ==> Compatible(log[i], log[j])
  }

  /** Two evaluations of a rule are its interval apart, if the first was stamped. */
  ghost predicate Spaced(log: seq<Entry>) {
    forall i, j :: 0 <= i < j < |log| && log[i].Evaluated? && log[j].Evaluated? && log[i].rule == log[j].rule ==>
      log[i].saved ==> log[j].now - log[i].now >= log[j].interval * MINUTE
  }

  /** Once a match was applied to the end and that was stamped, no later tick acts for the rule before
      the recorded time plus the cooldown. */
  ghost predicate CooledDown(log: seq<Entry>) {
    forall i, j :: 0 <= i < j < |log| && log[i].Completed? && log[j].Ran? && log[i].rule == log[j].rule ==>
      log[i].saved && log[i].tick < log[j].tick ==> log[j].now >= log[i].firedAt + log[j].cooldown * MINUTE
  }

  /** No fire is acted on twice. */
  ghost predicate ActedOnce(log: seq<Entry>) {
    forall i, j :: 0 <= i < j < |log| && log[i].Ran? && log[j].Ran? ==> log[i].fire != log[j].fire
  }

  lemma HistoryLaws(log: seq<Entry>)
    requires Good(log)
    ensures Spaced(log) && CooledDown(log) && ActedOnce(log)
  {
    forall i, j | 0 <= i < j < |log| ensures Compatible(log[i], log[j]) {
    }
  }

  /** The rule's row takes account of a saved entry about it. */
  predicate Notes(rule: Rule, id: Id, e: Entry) {
    match e
    case Evaluated(r, _, now, saved, _) =>
      r == id && saved ==> rule.lastEvaluated.Some? && rule.lastEvaluated.value >= now
    case Completed(r, _, firedAt, saved) => r == id && saved ==> rule.lastFired.Some? && rule.lastFired.value >= firedAt
    case Ran(_, _, _, _, _, _, _) => true
  }

  ghost predicate Remembers(rule: Rule, id: Id, log: seq<Entry>) {
    && rule.cooldown >= 0
    && forall i {:trigger Notes(rule, id, log[i])} :: 0 <= i < |log| ==> Notes(rule, id, log[i])
  }

  ghost predicate AllRemember(rules: map<Id, Rule>, log: seq<Entry>) {
    forall id :: id in rules ==> Remembers(rules[id], id, log)
  }

  /** Moving a timestamp forward forgets nothing. */
  lemma RemembersLater(row: Rule, later: Rule, id: Id, log: seq<Entry>)
    requires Remembers(row, id, log) && later.cooldown >= 0
    requires row.lastEvaluated.Some? ==>
               later.lastEvaluated.Some? && later.lastEvaluated.value >= row.lastEvaluated.value
    requires row.lastFired.Some? ==> later.lastFired.Some? && later.lastFired.value >= row.lastFired.value
    ensures Remembers(later, id, log)
  {
    forall i | 0 <= i < |log| ensures Notes(later, id, log[i]) {
      assert Notes(row, id, log[i]);
    }
  }

  lemma RemembersOneMore(row: Rule, id: Id, log: seq<Entry>, e: Entry)
    requires Remembers(row, id, log) && Notes(row, id, e)
    ensures Remembers(row, id, log + [e])
  {
    forall i | 0 <= i < |log + [e]| ensures Notes(row, id, (log + [e])[i]) {
      if i < |log| {
        assert Notes(row, id, log[i]);
      }
    }
  }

  /** Writing one row forward and one entry about it keeps every row's memory. */
  lemma RememberStep(rules: map<Id, Rule>, id: Id, row: Rule, log: seq<Entry>, e: Entry)
    requires AllRemember(rules, log) && e.rule == id && id in rules
    requires row.cooldown == rules[id].cooldown && Notes(row, id, e)
    requires rules[id].lastEvaluated.Some? ==>
               row.lastEvaluated.Some? && row.lastEvaluated.value >= rules[id].lastEvaluated.value
    requires rules[id].lastFired.Some? ==> row.lastFired.Some? && row.lastFired.value >= rules[id].lastFired.value
    ensures AllRemember(rules[id := row], log + [e])
  {
    forall x | x in rules ensures Remembers(rules[id := row][x], x, log + [e]) {
      RemembersLater(rules[x], rules[id := row][x], x, log);
      RemembersOneMore(rules[id := row][x], x, log, e);
    }
  }

  /** A rule nobody has seen yet has nothing to remember. */
  lemma NewRuleRemembers(rules: map<Id, Rule>, id: Id, row: Rule, log: seq<Entry>)
    requires AllRemember(rules, log) && row.cooldown >= 0
    requires id in rules ==> row.lastEvaluated == rules[id].lastEvaluated && row.lastFired == rules[id].lastFired
    requires id !in rules ==> forall i :: 0 <= i < |log| ==> log[i].rule != id
    ensures AllRemember(rules[id := row], log)
  {
    forall x | x in rules || x == id ensures Remembers(rules[id := row][x], x, log) {
      if x in rules {
        RemembersLater(rules[x], rules[id := row][x], x, log);
      }
    }
  }

  lemma GoodOneMore(log: seq<Entry>, e: Entry)
    requires Good(log)
    requires forall i :: 0 <= i < |log| ==> Compatible(log[i], e)
    ensures Good(log + [e])
  {
    forall i, j | 0 <= i < j < |log + [e]| ensures Compatible((log + [e])[i], (log + [e])[j]) {
      if j < |log| {
        assert Compatible(log[i], log[j]);
      }
    }
  }

  /** A due rule may be evaluated: its row knows of every saved evaluation before. */
  lemma DueIsCompatible(rule: Rule, log: seq<Entry>, e: Entry)
    requires e.Evaluated? && Remembers(rule, e.rule, log)
    requires Due(rule, e.now) && e.interval == EffectiveInterval(rule.interval)
    ensures forall i :: 0 <= i < |log| ==> Compatible(log[i], e)
  {
    forall i | 0 <= i < |log| ensures Compatible(log[i], e) {
      assert Notes(rule, e.rule, log[i]);
    }
  }

  /** The rule has been quiet long enough, whatever earlier tick it completed in. */
  predicate RestedSince(e: Entry, id: Id, tick: nat, now: int, cooldown: int) {
    e.Completed? && e.rule == id && e.saved && e.tick < tick ==> now - e.firedAt >= cooldown * MINUTE
  }

  ghost predicate Rested(log: seq<Entry>, id: Id, tick: nat, now: int, cooldown: int) {
    forall i {:trigger RestedSince(log[i], id, tick, now, cooldown)} :: 0 <= i < |log| ==>
      RestedSince(log[i], id, tick, now, cooldown)
  }

  lemma NotCoolingIsRested(rule: Rule, log: seq<Entry>, id: Id, tick: nat, now: int)
    requires Remembers(rule, id, log) && !Cooling(rule, now)
    ensures Rested(log, id, tick, now, rule.cooldown)
  {
    forall i | 0 <= i < |log| ensures RestedSince(log[i], id, tick, now, rule.cooldown) {
      assert Notes(rule, id, log[i]);
    }
  }

  lemma RestedOneMore(log: seq<Entry>, e: Entry, id: Id, tick: nat, now: int, cooldown: int)
    requires Rested(log, id, tick, now, cooldown) && e.tick >= tick
    ensures Rested(log + [e], id, tick, now, cooldown)
  {
    forall i | 0 <= i < |log + [e]| ensures RestedSince((log + [e])[i], id, tick, now, cooldown) {
      if i < |log| {
        assert RestedSince(log[i], id, tick, now, cooldown);
      }
    }
  }

  /** A rested rule may act on a fire nobody has acted on. */
  lemma RestedIsCompatible(log: seq<Entry>, e: Entry)
    requires e.Ran? && Rested(log, e.rule, e.tick, e.now, e.cooldown)
    requires forall i :: 0 <= i < |log| && log[i].Ran? ==> log[i].fire != e.fire
    ensures forall i :: 0 <= i < |log| ==> Compatible(log[i], e)
  {
    forall i | 0 <= i < |log| ensures Compatible(log[i], e) {
      assert RestedSince(log[i], e.rule, e.tick, e.now, e.cooldown);
    }
  }

  // ------------------------------------------------------------------ selection

  function CountOf(rules: map<Id, Rule>, ids: seq<Id>, customer: Id): nat {
    if ids == [] then 0
    else CountOf(rules, ids[..|ids| - 1], customer)
         + if ids[|ids| - 1] in rules && rules[ids[|ids| - 1]].customer == customer then 1 else 0
  }

  /** The rules a tick evaluates, in listing order: due ones, at most `cap` per customer (0: no cap). */
  function Selected(rules: map<Id, Rule>, listed: seq<Id>, now: int, cap: nat): seq<Id> {
    if listed == [] then []
    else
      var front, id := Selected(rules, listed[..|listed| - 1], now, cap), listed[|listed| - 1];
      if id in rules && Due(rules[id], now) && (cap == 0 || CountOf(rules, front, rules[id].customer) < cap)
      then front + [id] else front
  }

  function DueOf(rules: map<Id, Rule>, listed: seq<Id>, now: int, customer: Id): nat {
    if listed == [] then 0
    else DueOf(rules, listed[..|listed| - 1], now, customer)
         + if listed[|listed| - 1] in rules && Due(rules[listed[|listed| - 1]], now)
              && rules[listed[|listed| - 1]].customer == customer then 1 else 0
  }

  /** Each customer gets the first `cap` of its due rules, no fewer and no more. */
  lemma {:induction false} SelectedPerCustomer(rules: map<Id, Rule>, listed: seq<Id>, now: int, cap: nat, customer: Id)
    requires cap > 0
    ensures var due := DueOf(rules, listed, now, customer);
            CountOf(rules, Selected(rules, listed, now, cap), customer) == if due <= cap then due else cap
  {
    if listed != [] {
      var front, id := Selected(rules, listed[..|listed| - 1], now, cap), listed[|listed| - 1];
      SelectedPerCustomer(rules, listed[..|listed| - 1], now, cap, customer);
      if id in rules {
        SelectedPerCustomer(rules, listed[..|listed| - 1], now, cap, rules[id].customer);
      }
      assert (front + [id])[..|front|] == front;
    }
  }

  // ------------------------------------------------------------------ the worker

  datatype Insert = Failed | Present | New

  /** Every action of the match has its fire row. */
  ghost predicate AllClaimed(key: Fire -> RowKey, actions: seq<Deed>, rule: Id, target: Target, fires: set<RowKey>) {
    forall a :: a in actions ==> RowOf(Keys(key, rule, target), a) in fires
  }

  /** Each match was looked at; the ones that went through have all their fire rows. */
  ghost predicate Applied(key: Fire -> RowKey, actions: seq<Deed>, rule: Id, matches: seq<Target>, applied: seq<bool>,
                          fires: set<RowKey>) {
    |applied| <= |matches| &&
    forall m :: 0 <= m < |applied| && applied[m] ==> AllClaimed(key, actions, rule, matches[m], fires)
  }

  lemma AppliedOneMore(key: Fire -> RowKey, actions: seq<Deed>, rule: Id, matches: seq<Target>, applied: seq<bool>,
                       fires: set<RowKey>, fires': set<RowKey>, ok: bool)
    requires Applied(key, actions, rule, matches, applied, fires) && fires <= fires' && |applied| < |matches|
    requires ok ==> AllClaimed(key, actions, rule, matches[|applied|], fires')
    ensures Applied(key, actions, rule, matches, applied + [ok], fires')
  {
    forall m | 0 <= m < |applied| && applied[m] ensures AllClaimed(key, actions, rule, matches[m], fires') {
      assert AllClaimed(key, actions, rule, matches[m], fires);
    }
  }

  /** Nothing that was attempted in between failed. */
  predicate Calm(trouble: nat -> bool, from: nat, to: nat) {
    forall k :: from <= k < to ==> !trouble(k)
  }

  /** The matches of a rule; one whose evaluation failed has none. */
  function MatchesOf(found: map<Id, seq<Target>>, id: Id): seq<Target> {
    if id in found then found[id] else []
  }

  /** Rules, fire rows, history and attempts at the beginning of a tick. */
  datatype Snapshot = Snapshot(rules: map<Id, Rule>, fires: set<RowKey>, log: seq<Entry>, attempts: nat)

  /** The matches an evaluated rule has to apply: none while it is cooling. */
  function WorksNow(row: Rule, rule: Id, now: int, matches: seq<Target>): seq<Work> {
    if Cooling(row, now) then [] else WorksOf(rule, row.actions, matches)
  }

  lemma SameWorks(row: Rule, row': Rule, rule: Id, now: int, matches: seq<Target>)
    requires row' == row.(lastEvaluated := row'.lastEvaluated)
    ensures WorksNow(row', rule, now, matches) == WorksNow(row, rule, now, matches)
    ensures Cooling(row', now) == Cooling(row, now) && row'.actions == row.actions
  {
  }

  /** The matches a tick has to apply, rule by rule. */
  function TickWorks(rules: map<Id, Rule>, now: int, found: map<Id, seq<Target>>, evaluated: seq<Id>): seq<Work> {
    if evaluated == [] then []
    else
      var front, id := evaluated[..|evaluated| - 1], evaluated[|evaluated| - 1];
      TickWorks(rules, now, found, front)
      + if id in rules then WorksNow(rules[id], id, now, MatchesOf(found, id)) else []
  }

  /** The actions begun in a stretch of history, in order. */
  function Begun(log: seq<Entry>): seq<Order> {
    if log == [] then []
    else Begun(log[..|log| - 1]) + if log[|log| - 1].Ran? then [OrderOf(log[|log| - 1])] else []
  }

  function OrderOf(e: Entry): Order
    requires e.Ran?
  {
    Order(e.rule, e.target, e.deed)
  }

  lemma BegunSnoc(log: seq<Entry>, e: Entry)
    ensures e.Ran? ==> Begun(log + [e]) == Begun(log) + [OrderOf(e)]
    ensures !e.Ran? ==> Begun(log + [e]) == Begun(log)
  {
    assert (log + [e])[..|log|] == log;
  }

  /** The works were done: their rows are there, and begun are those actions that had to be, in order. */
  ghost predicate Did(key: Fire -> RowKey, works: seq<Work>, before: set<RowKey>, fires: set<RowKey>,
                      begun: seq<Order>, begun': seq<Order>) {
    fires == FiresAfter(key, works, before) && begun' == begun + Begins(key, works, before)
  }

  lemma DidNothing(key: Fire -> RowKey, before: set<RowKey>, begun: seq<Order>)
    ensures Did(key, [], before, before, begun, begun)
  {
  }

  lemma {:induction false} DidMore(key: Fire -> RowKey, works: seq<Work>, more: seq<Work>, before: set<RowKey>,
                                   mid: set<RowKey>, fires: set<RowKey>, begun: seq<Order>, begun': seq<Order>,
                                   begun'': seq<Order>)
    requires Did(key, works, before, mid, begun, begun') && Did(key, more, mid, fires, begun', begun'')
    ensures Did(key, works + more, before, fires, begun, begun'')
  {
    BeginsAppend(key, works, more, before);
    Regroup(begun, Begins(key, works, before), Begins(key, more, mid));
  }

  lemma Regroup<T>(a: seq<T>, b: seq<T>, c: seq<T>)
    ensures (a + b) + c == a + (b + c)
  {
  }

  /** How far a match got with an action: through, or not, and then it may have been begun. */
  ghost predicate Tried(row: RowKey, order: Order, through: bool, before: set<RowKey>, fires: set<RowKey>,
                        begun: seq<Order>, begun': seq<Order>) {
    && (begun' == begun || (row !in before && begun' == begun + [order]))
    && (through ==> fires == before + {row} && (row in before <==> begun' == begun))
  }

  /** The match went through these actions: their rows are there, and those carried out are the ones
      that had to be. */
  ghost predicate Went(keys: Keys, actions: seq<Deed>, before: set<RowKey>, fires: set<RowKey>,
                       begun: seq<Order>, begun': seq<Order>) {
    fires == RowsAfter(keys, actions, before) && begun' == begun + OrdersOf(keys, Carried(keys, actions, before))
  }

  /** Going through the actions, or stopping on the way: a first part of what had to be carried out was
      begun, and all of it if nothing stopped the match. */
  ghost predicate Ended(keys: Keys, actions: seq<Deed>, ok: bool, before: set<RowKey>, fires: set<RowKey>,
                        begun: seq<Order>, begun': seq<Order>) {
    && (ok ==> Went(keys, actions, before, fires, begun, begun'))
    && begun' <= begun + OrdersOf(keys, Carried(keys, actions, before))
  }

  lemma {:induction false} WentOneMore(keys: Keys, actions: seq<Deed>, i: nat, through: bool, before: set<RowKey>,
                                       mid: set<RowKey>, fires: set<RowKey>, begun: seq<Order>, begun': seq<Order>,
                                       begun'': seq<Order>)
    requires i < |actions| && Went(keys, actions[..i], before, mid, begun, begun')
    requires Tried(RowOf(keys, actions[i]), Order(keys.rule, keys.target, actions[i]), through, mid, fires,
                   begun', begun'')
    ensures through ==> Went(keys, actions[..i + 1], before, fires, begun, begun'')
    ensures begun'' <= begun + OrdersOf(keys, Carried(keys, actions, before))
  {
    var done, one := Carried(keys, actions[..i], before), Order(keys.rule, keys.target, actions[i]);
    CarriedSnoc(keys, actions, before, i);
    OrdersSnoc(keys, done, actions[i]);
    assert begun + (OrdersOf(keys, done) + [one]) == begun + OrdersOf(keys, done) + [one] && done + [] == done;
    WentPrefix(keys, actions, i, before, begun);
    WentPrefix(keys, actions, i + 1, before, begun);
  }

  lemma {:induction false} WentPrefix(keys: Keys, actions: seq<Deed>, i: nat, before: set<RowKey>, begun: seq<Order>)
    requires i <= |actions|
    ensures begun + OrdersOf(keys, Carried(keys, actions[..i], before))
         <= begun + OrdersOf(keys, Carried(keys, actions, before))
  {
    CarriedFront(keys, actions, before, i);
    PrefixAfter(begun, OrdersOf(keys, Carried(keys, actions[..i], before)),
                OrdersOf(keys, Carried(keys, actions, before)));
  }

  lemma PrefixAfter<T>(front: seq<T>, a: seq<T>, b: seq<T>)
    requires a <= b
    ensures front + a <= front + b
  {
  }

  /** Noting the time at the end takes nothing back. */
  lemma {:induction false} MatchCompleted(keys: Keys, actions: seq<Deed>, before: set<RowKey>, fires: set<RowKey>,
                                          begun: seq<Order>, log: seq<Entry>, e: Entry)
    requires !e.Ran? && Ended(keys, actions, true, before, fires, begun, Begun(log))
    ensures AllClaimed(keys.key, actions, keys.rule, keys.target, fires)
    ensures Ended(keys, actions, true, before, fires, begun, Begun(log + [e]))
  {
    BegunSnoc(log, e);
  }

  /** The matches of a rule that are to be applied. */
  datatype WorkList = WorkList(key: Fire -> RowKey, rule: Id, actions: seq<Deed>, matches: seq<Target>)

  /** The first matches have been looked at; the ones that went through have all their fire rows; if
      nothing failed, all did, and begun is what had to be. */
  ghost predicate SoFar(w: WorkList, applied: seq<bool>, calm: bool, before: set<RowKey>, fires: set<RowKey>,
                        begun: seq<Order>, begun': seq<Order>) {
    && Applied(w.key, w.actions, w.rule, w.matches, applied, fires)
    && (calm ==>
          && (forall m :: 0 <= m < |applied| ==> applied[m])
          && Did(w.key, WorksOf(w.rule, w.actions, w.matches[..|applied|]), before, fires, begun, begun'))
  }

  lemma {:induction false} SoFarOneMore(w: WorkList, applied: seq<bool>, calm: bool, ok: bool, calm': bool,
                                        before: set<RowKey>, mid: set<RowKey>, fires: set<RowKey>,
                                        begun: seq<Order>, begun': seq<Order>, begun'': seq<Order>)
    requires |applied| < |w.matches| && mid <= fires
    requires SoFar(w, applied, calm, before, mid, begun, begun') && (calm' ==> calm && ok)
    requires ok ==> AllClaimed(w.key, w.actions, w.rule, w.matches[|applied|], fires)
    requires ok ==> Went(Keys(w.key, w.rule, w.matches[|applied|]), w.actions, mid, fires, begun', begun'')
    ensures SoFar(w, applied + [ok], calm', before, fires, begun, begun'')
  {
    AppliedOneMore(w.key, w.actions, w.rule, w.matches, applied, mid, fires, ok);
    if calm' {
      DidOneMatch(w.key, w.rule, w.actions, w.matches, |applied|, before, mid, fires, begun, begun', begun'');
    }
  }

  lemma CalmSplits(trouble: nat -> bool, a: nat, b: nat, c: nat)
    requires a <= b <= c
    ensures Calm(trouble, a, c) ==> Calm(trouble, a, b) && Calm(trouble, b, c)
  {
  }

  /** A match more, in order. */
  lemma {:induction false} DidOneMatch(key: Fire -> RowKey, rule: Id, actions: seq<Deed>, matches: seq<Target>, m: nat,
                                       before: set<RowKey>, mid: set<RowKey>, fires: set<RowKey>,
                                       begun: seq<Order>, begun': seq<Order>, begun'': seq<Order>)
    requires m < |matches| && Did(key, WorksOf(rule, actions, matches[..m]), before, mid, begun, begun')
    requires Went(Keys(key, rule, matches[m]), actions, mid, fires, begun', begun'')
    ensures Did(key, WorksOf(rule, actions, matches[..m + 1]), before, fires, begun, begun'')
  {
    var work := Work(rule, matches[m], actions);
    OneWork(key, work, mid);
    DidMore(key, WorksOf(rule, actions, matches[..m]), [work], before, mid, fires, begun, begun', begun'');
    assert WorksOf(rule, actions, matches[..m + 1]) == WorksOf(rule, actions, matches[..m]) + [work];
  }

  lemma {:induction false} DidOneRule(key: Fire -> RowKey, before: Snapshot, now: int, found: map<Id, seq<Target>>,
                                      evaluated: seq<Id>, id: Id, mid: set<RowKey>, fires: set<RowKey>,
                                      middle: seq<Entry>, log: seq<Entry>)
    requires Acted(key, before, now, found, evaluated, mid, middle) && id in before.rules
    requires Did(key, WorksNow(before.rules[id], id, now, MatchesOf(found, id)), mid, fires, Begun(middle), Begun(log))
    ensures Acted(key, before, now, found, evaluated + [id], fires, log)
  {
    DidMore(key, TickWorks(before.rules, now, found, evaluated),
            WorksNow(before.rules[id], id, now, MatchesOf(found, id)),
            before.fires, mid, fires, Begun(before.log), Begun(middle), Begun(log));
    assert (evaluated + [id])[..|evaluated|] == evaluated;
  }

  /** What a tick has done for the rules it evaluated, if nothing failed: begun the actions of their
      matches that had to be begun, in order, and inserted their fire rows. */
  ghost predicate Acted(key: Fire -> RowKey, before: Snapshot, now: int, found: map<Id, seq<Target>>,
                        evaluated: seq<Id>, fires: set<RowKey>, log: seq<Entry>) {
    Did(key, TickWorks(before.rules, now, found, evaluated), before.fires, fires, Begun(before.log), Begun(log))
  }

  /** The history goes on by one evaluation of the rule and what it leads to. */
  ghost predicate EvaluatedOnce(before: seq<Entry>, log: seq<Entry>, id: Id, tick: nat, now: int, row: Rule) {
    && before < log && Counted(log[|before|], id, tick, now, row)
    && forall i :: |before| <= i < |log| ==> log[i].rule == id && log[i].tick == tick
  }

  lemma {:induction false} EvaluationEnds(before: seq<Entry>, noted: seq<Entry>, log: seq<Entry>, id: Id, tick: nat,
                                          now: int, row: Rule)
    requires |noted| == |before| + 1 && before < noted <= log && Counted(noted[|before|], id, tick, now, row)
    requires forall k :: |noted| <= k < |log| ==> log[k].rule == id && log[k].tick == tick && !log[k].Evaluated?
    ensures EvaluatedOnce(before, log, id, tick, now, row)
    ensures Evaluations(log) == Evaluations(before) + [id]
  {
    EvaluationsGrow(before, log, id);
  }

  /** The entry of an evaluation, stamped or not. */
  predicate Counted(e: Entry, id: Id, tick: nat, now: int, row: Rule) {
    e.Evaluated? && e == Evaluated(id, tick, now, e.saved, EffectiveInterval(row.interval))
  }

  class Worker {
    const cap: nat
    const key: Fire -> RowKey
    /** Which of the attempts at an insert or an action report an error; `attempts` counts them. */
    const trouble: nat -> bool
    var attempts: nat
    var rules: map<Id, Rule>
    var fires: set<RowKey>
    var ticks: nat
    ghost var log: seq<Entry>

    constructor (cap: nat, hash: string -> string, trouble: nat -> bool)
      ensures Valid() && log == [] && rules == map[] && fires == {} && attempts == 0
      ensures this.cap == cap && this.trouble == trouble && key == RowKeyOf(hash)
    {
      this.cap, this.trouble := cap, trouble;
      key := RowKeyOf(hash);
      rules, fires, ticks, log, attempts := map[], {}, 0, [], 0;
    }

    method Attempt() returns (failed: bool)
      modifies this`attempts
      ensures attempts == old(attempts) + 1 && failed == trouble(old(attempts))
    {
      failed := trouble(attempts);
      attempts := attempts + 1;
    }

    ghost predicate Valid()
      reads this
    {
      && Good(log)
      && AllRemember(rules, log)
      && (forall i :: 0 <= i < |log| ==> log[i].tick <= ticks && log[i].rule in rules)
      && (forall i :: 0 <= i < |log| && log[i].Ran? ==> key(log[i].fire) in fires)
    }

    /** An edit through the rules API keeps both timestamps; a new rule has neither. */
    method PutRule(id: Id, rule: Rule)
      requires Valid() && rule.cooldown >= 0
      modifies this`rules
      ensures Valid()
      ensures id in old(rules) ==> rules == old(rules)[id := rule.(lastEvaluated := old(rules)[id].lastEvaluated,
                                                                 lastFired := old(rules)[id].lastFired)]
      ensures id !in old(rules) ==> rules == old(rules)[id := rule.(lastEvaluated := None, lastFired := None)]
    {
      var row := if id in rules
        then rule.(lastEvaluated := rules[id].lastEvaluated, lastFired := rules[id].lastFired)
        else rule.(lastEvaluated := None, lastFired := None);
      NewRuleRemembers(rules, id, row, log);
      rules := rules[id := row];
    }

    /** The history goes on by entries of this tick, for this rule, other than evaluations. */
    ghost predicate Adds(before: seq<Entry>, id: Id)
      reads this`log, this`ticks
    {
      && before <= log
      && forall k :: |before| <= k < |log| ==> log[k].rule == id && log[k].tick == ticks && !log[k].Evaluated?
    }

    /** The rule may act in this tick, and its row does not say it fired later than `latest`. */
    ghost predicate MayAct(id: Id, now: int, latest: int, cooldown: int)
      reads this`log, this`ticks, this`rules
    {
      && id in rules && rules[id].cooldown == cooldown
      && Rested(log, id, ticks, now, cooldown)
      && now <= latest
      && (rules[id].lastFired.Some? ==> rules[id].lastFired.value <= latest)
    }

    /** Nothing but the rule's two timestamps differs from `before`, and that only in row `id`. */
    ghost predicate OnlyRow(before: map<Id, Rule>, id: Id)
      reads this`rules
    {
      && rules.Keys == before.Keys && id in rules
      && (forall x :: x in rules && x != id ==> rules[x] == before[x])
      && rules[id] == before[id].(lastEvaluated := rules[id].lastEvaluated, lastFired := rules[id].lastFired)
    }

    ghost predicate NeverRan(fire: Fire)
      reads this`log
    {
      forall i :: 0 <= i < |log| && log[i].Ran? ==> log[i].fire != fire
    }

    /** Insert the fire row if nobody has; an insert that reports an error may still have happened. */
    method InsertFire(fire: Fire) returns (r: Insert)
      requires Valid()
      modifies this`fires, this`attempts
      ensures Valid() && old(fires) <= fires <= old(fires) + {key(fire)} && attempts == old(attempts) + 1
      ensures r == Failed <==> trouble(old(attempts))
      ensures r == New ==> key(fire) !in old(fires) && fires == old(fires) + {key(fire)}
      ensures r == Present ==> key(fire) in old(fires) && fires == old(fires)
      ensures r == New ==> NeverRan(fire)
    {
      var failed := Attempt();
      if failed {
        var landed := Happens();
        if landed {
          fires := fires + {key(fire)};
        }
        return Failed;
      }
      if key(fire) in fires {
        return Present;
      }
      fires := fires + {key(fire)};
      return New;
    }

    /** Act, on a fire whose row this worker has just inserted. */
    method RunAction(id: Id, fire: Fire, target: Target, deed: Deed, now: int, ghost latest: int, ghost cooldown: int)
      returns (failed: bool)
      requires Valid() && MayAct(id, now, latest, cooldown) && key(fire) in fires && NeverRan(fire)
      modifies this`log, this`attempts
      ensures Valid() && MayAct(id, now, latest, cooldown) && Adds(old(log), id)
      ensures log == old(log) + [Ran(id, ticks, now, fire, target, deed, cooldown)]
      ensures attempts == old(attempts) + 1 && failed == trouble(old(attempts))
    {
      ghost var entry := Ran(id, ticks, now, fire, target, deed, cooldown);
      RestedIsCompatible(log, entry);
      GoodOneMore(log, entry);
      RememberStep(rules, id, rules[id], log, entry);
      assert rules[id := rules[id]] == rules;
      RestedOneMore(log, entry, id, ticks, now, cooldown);
      log := log + [entry];
      failed := Attempt();
    }

    /** Every action was dealt with: note the time, if the update gets through. */
    method NoteFired(id: Id, ghost now: int, earliest: int, ghost cooldown: int) returns (firedAt: int)
      requires Valid() && MayAct(id, now, earliest, cooldown)
      modifies this`rules, this`log
      ensures Valid() && MayAct(id, now, firedAt, cooldown) && Adds(old(log), id) && OnlyRow(old(rules), id)
      ensures |log| == |old(log)| + 1 && log == old(log) + [log[|old(log)|]]
      ensures log[|old(log)|].Completed? && log[|old(log)|].firedAt == firedAt
    {
      firedAt := ClockAfter(earliest);
      var saved := Happens();
      var row := rules[id];
      if saved {
        row := row.(lastFired := Some(firedAt));
      }
      ghost var entry := Completed(id, ticks, firedAt, saved);
      GoodOneMore(log, entry);
      RememberStep(rules, id, row, log, entry);
      RestedOneMore(log, entry, id, ticks, now, cooldown);
      rules := rules[id := row];
      log := log + [entry];
    }

    /** Insert the fire row, then act if the row is ours. */
    method TakeAction(id: Id, target: Target, deed: Deed, now: int, ghost latest: int, ghost cooldown: int)
      returns (through: bool)
      requires Valid() && MayAct(id, now, latest, cooldown)
      modifies this`fires, this`log, this`attempts
      ensures Valid() && MayAct(id, now, latest, cooldown) && Adds(old(log), id)
      ensures old(fires) <= fires && old(attempts) <= attempts
      ensures forall j :: |old(log)| <= j < |log| ==> log[j].Ran?
      ensures Calm(trouble, old(attempts), attempts) ==> through
      ensures Tried(RowOf(Keys(key, id, target), deed), Order(id, target, deed), through, old(fires), fires,
                    Begun(old(log)), Begun(log))
    {
      var fire := FireOf(id, target, deed.kind);
      var inserted := InsertFire(fire);
      through := inserted == Present;
      if inserted == New {
        BegunSnoc(log, Ran(id, ticks, now, fire, target, deed, cooldown));
        var failed := RunAction(id, fire, target, deed, now, latest, cooldown);
        through := !failed;
      }
    }

    /** Action after action, until an insert or an action fails. */
    method TakeActions(id: Id, target: Target, now: int, ghost latest: int, ghost cooldown: int)
      returns (through: bool)
      requires Valid() && MayAct(id, now, latest, cooldown)
      modifies this`fires, this`log, this`attempts
      ensures Valid() && MayAct(id, now, latest, cooldown) && Adds(old(log), id)
      ensures old(fires) <= fires && old(attempts) <= attempts
      ensures forall j :: |old(log)| <= j < |log| ==> log[j].Ran?
      ensures Calm(trouble, old(attempts), attempts) ==> through
      ensures Ended(Keys(key, id, target), rules[id].actions, through, old(fires), fires, Begun(old(log)), Begun(log))
    {
      var actions := rules[id].actions;
      ghost var keys := Keys(key, id, target);
      for i := 0 to |actions|
        invariant Valid() && MayAct(id, now, latest, cooldown) && Adds(old(log), id)
        invariant old(fires) <= fires && old(attempts) <= attempts
        invariant forall j :: |old(log)| <= j < |log| ==> log[j].Ran?
        invariant Went(keys, actions[..i], old(fires), fires, Begun(old(log)), Begun(log))
      {
        ghost var mid, begun := fires, Begun(log);
        through := TakeAction(id, target, actions[i], now, latest, cooldown);
        WentOneMore(keys, actions, i, through, old(fires), mid, fires, Begun(old(log)), begun, Begun(log));
        if !through {
          return;
        }
      }
      assert actions[..|actions|] == actions;
      through := true;
    }

    /** All the actions of a match, then the time they were done. A match that fails has begun a first
        part of the actions it had to carry out. */
    method ApplyMatch(id: Id, target: Target, now: int, earliest: int, ghost cooldown: int)
      returns (firedAt: int, ok: bool)
      requires Valid() && MayAct(id, now, earliest, cooldown)
      modifies this`rules, this`fires, this`log, this`attempts
      ensures Valid() && MayAct(id, now, firedAt, cooldown) && Adds(old(log), id) && OnlyRow(old(rules), id)
      ensures old(fires) <= fires && old(attempts) <= attempts
      ensures Calm(trouble, old(attempts), attempts) ==> ok
      ensures ok ==> AllClaimed(key, old(rules)[id].actions, id, target, fires)
      ensures if ok then |log| > |old(log)| && log[|log| - 1].Completed?
              else forall j :: |old(log)| <= j < |log| ==> log[j].Ran?
      ensures Ended(Keys(key, id, target), old(rules)[id].actions, ok, old(fires), fires, Begun(old(log)), Begun(log))
    {
      firedAt := earliest;
      ok := TakeActions(id, target, now, earliest, cooldown);
      if ok {
        ghost var was := log;
        firedAt := NoteFired(id, now, earliest, cooldown);
        MatchCompleted(Keys(key, id, target), rules[id].actions, old(fires), fires, Begun(old(log)), was, log[|was|]);
      }
    }

    /** Counted and, if the update gets through, stamped, before anything is looked at. */
    method NoteEvaluated(id: Id, now: int)
      requires Valid() && id in rules && Due(rules[id], now)
      requires forall i :: 0 <= i < |log| && log[i].rule == id ==> log[i].tick < ticks
      modifies this`rules, this`log
      ensures Valid() && OnlyRow(old(rules), id)
      ensures rules[id] == old(rules)[id].(lastEvaluated := rules[id].lastEvaluated)
      ensures Begun(log) == Begun(old(log))
      ensures |log| == |old(log)| + 1 && log == old(log) + [log[|old(log)|]]
      ensures Counted(log[|old(log)|], id, ticks, now, old(rules)[id])
    {
      var row := rules[id];
      var saved := Happens();
      ghost var entry := Evaluated(id, ticks, now, saved, EffectiveInterval(row.interval));
      DueIsCompatible(row, log, entry);
      GoodOneMore(log, entry);
      if saved {
        row := row.(lastEvaluated := Some(now));
      }
      RememberStep(rules, id, row, log, entry);
      BegunSnoc(log, entry);
      rules := rules[id := row];
      log := log + [entry];
    }

    /** One due rule within its customer's budget. `matches` is what its evaluation found; an
        evaluation that failed found nothing. */
    method EvaluateOne(id: Id, now: int, matches: seq<Target>) returns (applied: seq<bool>)
      requires Valid() && id in rules && Due(rules[id], now)
      requires forall i :: 0 <= i < |log| && log[i].rule == id ==> log[i].tick < ticks
      modifies this`rules, this`fires, this`log, this`attempts
      ensures Valid() && OnlyRow(old(rules), id)
      ensures EvaluatedOnce(old(log), log, id, ticks, now, old(rules)[id])
      ensures Evaluations(log) == Evaluations(old(log)) + [id]
      ensures Cooling(old(rules)[id], now) ==> |log| == |old(log)| + 1
      ensures |applied| == if Cooling(old(rules)[id], now) then 0 else |matches|
      ensures Applied(key, old(rules)[id].actions, id, matches, applied, fires)
      ensures old(fires) <= fires && old(attempts) <= attempts
      ensures Calm(trouble, old(attempts), attempts) ==>
                Did(key, WorksNow(old(rules)[id], id, now, matches), old(fires), fires, Begun(old(log)), Begun(log))
    {
      ghost var row := rules[id];
      NoteEvaluated(id, now);
      ghost var noted := log;
      SameWorks(row, rules[id], id, now, matches);
      applied := ServeMatches(id, now, matches);
      EvaluationEnds(old(log), noted, log, id, ticks, now, row);
    }

    /** A cooling rule is left alone; otherwise every match is applied. */
    method ServeMatches(id: Id, now: int, matches: seq<Target>) returns (applied: seq<bool>)
      requires Valid() && id in rules
      modifies this`rules, this`fires, this`log, this`attempts
      ensures Valid() && Adds(old(log), id) && OnlyRow(old(rules), id)
      ensures Cooling(old(rules)[id], now) ==> log == old(log)
      ensures |applied| == if Cooling(old(rules)[id], now) then 0 else |matches|
      ensures Applied(key, old(rules)[id].actions, id, matches, applied, fires)
      ensures old(fires) <= fires && old(attempts) <= attempts
      ensures Calm(trouble, old(attempts), attempts) ==>
                Did(key, WorksNow(old(rules)[id], id, now, matches), old(fires), fires, Begun(old(log)), Begun(log))
    {
      applied := [];
      if Cooling(rules[id], now) {
        DidNothing(key, fires, Begun(log));
        return;
      }
      NotCoolingIsRested(rules[id], log, id, ticks, now);
      applied := ApplyMatches(id, now, matches, rules[id].cooldown);
    }

    /** Every match, whether or not the ones before it went through. */
    method ApplyMatches(id: Id, now: int, matches: seq<Target>, ghost cooldown: int) returns (applied: seq<bool>)
      requires Valid() && MayAct(id, now, now, cooldown)
      modifies this`rules, this`fires, this`log, this`attempts
      ensures Valid() && Adds(old(log), id) && OnlyRow(old(rules), id)
      ensures |applied| == |matches| && Applied(key, old(rules)[id].actions, id, matches, applied, fires)
      ensures old(fires) <= fires && old(attempts) <= attempts
      ensures Calm(trouble, old(attempts), attempts) ==> forall m :: 0 <= m < |matches| ==> applied[m]
      ensures Calm(trouble, old(attempts), attempts) ==>
                Did(key, WorksOf(id, old(rules)[id].actions, matches), old(fires), fires, Begun(old(log)), Begun(log))
    {
      applied := [];
      ghost var work := WorkList(key, id, rules[id].actions, matches);
      var latest := now;
      for m := 0 to |matches|
        invariant Valid() && MayAct(id, now, latest, cooldown) && Adds(old(log), id) && OnlyRow(old(rules), id)
        invariant old(fires) <= fires && old(attempts) <= attempts && |applied| == m
        invariant SoFar(work, applied, Calm(trouble, old(attempts), attempts), old(fires), fires,
                        Begun(old(log)), Begun(log))
      {
        ghost var had, begun, tries := fires, Begun(log), attempts;
        var ok;
        latest, ok := ApplyMatch(id, matches[m], now, latest, cooldown);
        CalmSplits(trouble, old(attempts), tries, attempts);
        SoFarOneMore(work, applied, Calm(trouble, old(attempts), tries), ok, Calm(trouble, old(attempts), attempts),
                     old(fires), had, fires, Begun(old(log)), begun, Begun(log));
        applied := applied + [ok];
      }
      assert matches[..|matches|] == matches;
    }

    /** Rules this tick has not come to yet. */
    ghost predicate Untouched(before: map<Id, Rule>, listed: seq<Id>, from: nat)
      reads this`rules, this`log, this`ticks
    {
      forall k :: from <= k < |listed| ==> UntouchedRule(before, listed[k])
    }

    ghost predicate UntouchedRule(before: map<Id, Rule>, id: Id)
      reads this`rules, this`log, this`ticks
    {
      && id in rules && id in before && rules[id] == before[id]
      && forall l :: 0 <= l < |log| && log[l].rule == id ==> log[l].tick < ticks
    }

    /** Evaluating a rule does not touch those still to come. */
    method EvaluateListed(ghost before: map<Id, Rule>, listed: seq<Id>, i: nat, now: int, matches: seq<Target>)
      requires i < |listed| && Valid() && Untouched(before, listed, i)
      requires forall k, l :: 0 <= k < l < |listed| ==> listed[k] != listed[l]
      requires listed[i] in rules && Due(rules[listed[i]], now)
      modifies this`rules, this`fires, this`log, this`attempts
      ensures Valid() && rules.Keys == old(rules.Keys)
      ensures Evaluations(log) == Evaluations(old(log)) + [listed[i]]
      ensures Untouched(before, listed, i + 1)
      ensures old(log) <= log && old(fires) <= fires && old(attempts) <= attempts
      ensures Calm(trouble, old(attempts), attempts) ==>
                Did(key, WorksNow(before[listed[i]], listed[i], now, matches), old(fires), fires,
                    Begun(old(log)), Begun(log))
    {
      assert UntouchedRule(before, listed[i]);
      var applied := EvaluateOne(listed[i], now, matches);
      forall k | i < k < |listed| ensures UntouchedRule(before, listed[k]) {
        assert listed[k] != listed[i];
      }
    }

    /** The tick has dealt with the first `i` rules of the listing. */
    ghost predicate Considered(before: Snapshot, listed: seq<Id>, i: nat, now: int, found: map<Id, seq<Target>>,
                               evaluated: seq<Id>, evals: map<Id, nat>)
      requires i <= |listed|
      reads this
    {
      && Valid() && rules.Keys == before.rules.Keys
      && evaluated == Selected(before.rules, listed[..i], now, cap)
      && Counts(before.rules, evaluated, evals)
      && Evaluations(log) == Evaluations(before.log) + evaluated
      && Untouched(before.rules, listed, i)
      && Goes(before, now, found, evaluated)
    }

    /** Nothing of the past is lost; and if nothing failed since, the evaluated rules have been served. */
    ghost predicate Goes(before: Snapshot, now: int, found: map<Id, seq<Target>>, evaluated: seq<Id>)
      reads this
    {
      && before.log <= log && before.fires <= fires && before.attempts <= attempts
      && (Calm(trouble, before.attempts, attempts) ==> Acted(key, before, now, found, evaluated, fires, log))
    }

    /** The due check, the customer's budget, then the evaluation. */
    method ConsiderOne(ghost before: Snapshot, listed: seq<Id>, i: nat, now: int, found: map<Id, seq<Target>>,
                       evaluated: seq<Id>, evals: map<Id, nat>)
      returns (evaluated': seq<Id>, evals': map<Id, nat>)
      requires i < |listed| && Considered(before, listed, i, now, found, evaluated, evals)
      requires forall k, l :: 0 <= k < l < |listed| ==> listed[k] != listed[l]
      modifies this`rules, this`fires, this`log, this`attempts
      ensures Considered(before, listed, i + 1, now, found, evaluated', evals')
    {
      var id := listed[i];
      evaluated', evals' := evaluated, evals;
      assert UntouchedRule(before.rules, id);
      BudgetDecides(before.rules, listed, i, now, cap, evaluated, evals);
      if Due(rules[id], now) {
        var customer := rules[id].customer;
        var count := if customer in evals then evals[customer] else 0;
        if cap == 0 || count < cap {
          evals' := evals[customer := count + 1];
          AppendMore(Evaluations(before.log), evaluated, id);
          evaluated' := evaluated + [id];
          ServeListed(before, listed, i, now, found, evaluated);
        }
      }
    }

    method ServeListed(ghost before: Snapshot, listed: seq<Id>, i: nat, now: int, found: map<Id, seq<Target>>,
                       ghost evaluated: seq<Id>)
      requires i < |listed| && Valid() && Untouched(before.rules, listed, i) && Goes(before, now, found, evaluated)
      requires forall k, l :: 0 <= k < l < |listed| ==> listed[k] != listed[l]
      requires listed[i] in rules && Due(rules[listed[i]], now)
      modifies this`rules, this`fires, this`log, this`attempts
      ensures Valid() && rules.Keys == old(rules.Keys)
      ensures Evaluations(log) == Evaluations(old(log)) + [listed[i]]
      ensures Untouched(before.rules, listed, i + 1) && Goes(before, now, found, evaluated + [listed[i]])
    {
      assert UntouchedRule(before.rules, listed[i]);
      EvaluateListed(before.rules, listed, i, now, MatchesOf(found, listed[i]));
      if Calm(trouble, before.attempts, attempts) {
        DidOneRule(key, before, now, found, evaluated, listed[i], old(fires), fires, old(log), log);
      }
    }

    /** One tick over the enabled rules as listed. `found` gives the matches of each rule whose
        evaluation succeeds. It evaluates exactly the selected rules and loses nothing of the past. If no
        insert and no action fails, the matches of the evaluated rules that are not cooling are applied in
        order: their actions get their fire rows, and begun are those whose row was not there yet. */
    method Tick(now: int, listed: seq<Id>, found: map<Id, seq<Target>>) returns (evaluated: seq<Id>)
      requires Valid()
      requires forall i :: 0 <= i < |listed| ==> listed[i] in rules
      requires forall i, j :: 0 <= i < j < |listed| ==> listed[i] != listed[j]
      modifies this
      ensures Valid() && rules.Keys == old(rules.Keys)
      ensures evaluated == Selected(old(rules), listed, now, cap)
      ensures old(log) <= log && old(fires) <= fires && old(attempts) <= attempts
      ensures Evaluations(log) == Evaluations(old(log)) + evaluated
      ensures Calm(trouble, old(attempts), attempts) ==>
                Acted(key, Snapshot(old(rules), old(fires), old(log), old(attempts)), now, found, evaluated, fires, log)
    {
      ghost var before := Snapshot(rules, fires, log, attempts);
      DidNothing(key, fires, Begun(log));
      ticks := ticks + 1;
      evaluated := [];
      var evals: map<Id, nat> := map[];
      for i := 0 to |listed|
        invariant Considered(before, listed, i, now, found, evaluated, evals)
      {
        evaluated, evals := ConsiderOne(before, listed, i, now, found, evaluated, evals);
      }
      assert listed[..|listed|] == listed;
    }
  }

  // ------------------------------------------------------------------ whole histories

  /** A rule put through the API, or a tick over the table, listed in some order of its ids. */
  datatype Call = Put(id: Id, rule: Rule) | TickAt(now: int, order: seq<Id>, found: map<Id, seq<Target>>)

  predicate Distinct(ids: seq<Id>) {
    forall i, j :: 0 <= i < j < |ids| ==> ids[i] != ids[j]
  }

  /** Cooldowns are not negative, and an id is listed once. */
  predicate Possible(call: Call) {
    match call
    case Put(_, rule) => rule.cooldown >= 0
    case TickAt(_, order, _) => Distinct(order)
  }

  /** The listing holds only rules that are in the table. */
  function Listing(rules: map<Id, Rule>, order: seq<Id>): (listed: seq<Id>)
    ensures forall id :: id in listed <==> id in order && id in rules
  {
    if order == [] then []
    else Listing(rules, order[..|order| - 1]) + if order[|order| - 1] in rules then [order[|order| - 1]] else []
  }

  lemma {:induction false} ListingDistinct(rules: map<Id, Rule>, order: seq<Id>)
    requires Distinct(order)
    ensures Distinct(Listing(rules, order))
  {
    if order != [] {
      var front, last := order[..|order| - 1], order[|order| - 1];
      ListingDistinct(rules, front);
      assert last !in front;
    }
  }

  /** Any schedule of calls on a new worker, whatever fails. The whole history, in which every
      evaluation of every tick is found in order, is spaced, cooled down and free of repeated actions. */
  method Serve(cap: nat, hash: string -> string, trouble: nat -> bool, calls: seq<Call>)
    returns (w: Worker, evaluated: seq<seq<Id>>)
    requires forall k :: 0 <= k < |calls| ==> Possible(calls[k])
    ensures fresh(w) && Evaluations(w.log) == Flatten(evaluated)
    ensures Spaced(w.log) && CooledDown(w.log) && ActedOnce(w.log)
  {
    w := new Worker(cap, hash, trouble);
    evaluated := [];
    assert Flatten<Id>([]) == [];
    for k := 0 to |calls|
      invariant fresh(w) && w.Valid() && Evaluations(w.log) == Flatten(evaluated)
    {
      match calls[k]
      case Put(id, rule) => w.PutRule(id, rule);
      case TickAt(now, order, found) =>
        ListingDistinct(w.rules, order);
        var more := w.Tick(now, Listing(w.rules, order), found);
        FlattenSnoc(evaluated, more);
        evaluated := evaluated + [more];
    }
    HistoryLaws(w.log);
  }

  lemma SelectedNext(rules: map<Id, Rule>, listed: seq<Id>, i: nat, now: int, cap: nat)
    requires i < |listed|
    ensures Selected(rules, listed[..i + 1], now, cap) ==
            var front, id := Selected(rules, listed[..i], now, cap), listed[i];
            if id in rules && Due(rules[id], now) && (cap == 0 || CountOf(rules, front, rules[id].customer) < cap)
            then front + [id] else front
  {
    assert listed[..i + 1][..i] == listed[..i];
  }

  /** The tick's counters are the number of rules evaluated per customer. */
  ghost predicate Counts(rules: map<Id, Rule>, evaluated: seq<Id>, evals: map<Id, nat>) {
    forall c :: CountOf(rules, evaluated, c) == if c in evals then evals[c] else 0
  }

  /** The counters decide just as the specification does, and stay right. */
  lemma BudgetDecides(rules: map<Id, Rule>, listed: seq<Id>, i: nat, now: int, cap: nat,
                      evaluated: seq<Id>, evals: map<Id, nat>)
    requires i < |listed| && listed[i] in rules
    requires evaluated == Selected(rules, listed[..i], now, cap) && Counts(rules, evaluated, evals)
    ensures var id, customer := listed[i], rules[listed[i]].customer;
            var count := if customer in evals then evals[customer] else 0;
            if Due(rules[id], now) && (cap == 0 || count < cap)
            then Selected(rules, listed[..i + 1], now, cap) == evaluated + [id]
                 && Counts(rules, evaluated + [id], evals[customer := count + 1])
            else Selected(rules, listed[..i + 1], now, cap) == evaluated
  {
    SelectedNext(rules, listed, i, now, cap);
    CountOneMore(rules, evaluated, evals, listed[i]);
  }

  lemma CountOneMore(rules: map<Id, Rule>, ids: seq<Id>, evals: map<Id, nat>, id: Id)
    requires Counts(rules, ids, evals) && id in rules
    ensures var customer := rules[id].customer;
            var count := if customer in evals then evals[customer] else 0;
            count == CountOf(rules, ids, customer) && Counts(rules, ids + [id], evals[customer := count + 1])
  {
    assert (ids + [id])[..|ids|] == ids;
    assert CountOf(rules, ids, rules[id].customer) >= 0;
  }

  lemma AppendMore<T>(a: seq<T>, b: seq<T>, x: T)
    ensures (a + b) + [x] == a + (b + [x])
  {
  }

  /** The rules evaluated in a stretch of history, in order. */
  function Evaluations(log: seq<Entry>): seq<Id> {
    if log == [] then []
    else Evaluations(log[..|log| - 1]) + if log[|log| - 1].Evaluated? then [log[|log| - 1].rule] else []
  }

  lemma {:induction false} EvaluationsGrow(before: seq<Entry>, after: seq<Entry>, id: Id)
    requires before < after
    requires after[|before|].Evaluated? && after[|before|].rule == id
    requires forall i :: |before| < i < |after| ==> !after[i].Evaluated?
    ensures Evaluations(after) == Evaluations(before) + [id]
    decreases |after|
  {
    var front := after[..|after| - 1];
    if |after| == |before| + 1 {
      assert front == before;
    } else {
      EvaluationsGrow(before, front, id);
    }
  }
}
