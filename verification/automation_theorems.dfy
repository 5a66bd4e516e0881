/** What a tick does in the terms of its inputs: which rules it evaluates, and which actions it begins
    for which matches. */
module AutomationTheorems {
  import opened Options
  import opened Sequences
  import opened AutomationActions
  import opened AutomationFires
  import opened AutomationMatch
  import opened AutomationWorker

  // ------------------------------------------------------------------ evaluated rules

  /** A rule is evaluated exactly if it is listed, can be decoded, was never evaluated or at least its
      interval ago, and fewer than `cap` due rules of its customer come before it (0: no cap). */
  lemma {:induction false} SelectedIff(rules: map<Id, Rule>, listed: seq<Id>, now: int, cap: nat, k: nat)
    requires k < |listed| && Distinct(listed)
    ensures listed[k] in Selected(rules, listed, now, cap)
            <==> && listed[k] in rules && !rules[listed[k]].badRow
                 && (var row := rules[listed[k]];
                     row.lastEvaluated == None
                     || now - row.lastEvaluated.value >= (if row.interval <= 0 then 15 else row.interval) * 60)
                 && (cap == 0 || DueOf(rules, listed[..k], now, rules[listed[k]].customer) < cap)
  {
    var n := |listed| - 1;
    SelectedAreListed(rules, listed[..n], now, cap);
    if k < n {
      assert listed[..n][..k] == listed[..k];
      SelectedIff(rules, listed[..n], now, cap, k);
    } else {
      if cap > 0 && listed[k] in rules {
        SelectedPerCustomer(rules, listed[..n], now, cap, rules[listed[k]].customer);
      }
    }
  }

  lemma {:induction false} SelectedAreListed(rules: map<Id, Rule>, listed: seq<Id>, now: int, cap: nat)
    ensures forall id :: id in Selected(rules, listed, now, cap) ==> id in listed && id in rules
  {
    if listed != [] {
      SelectedAreListed(rules, listed[..|listed| - 1], now, cap);
    }
  }

  lemma {:induction false} SelectedDistinct(rules: map<Id, Rule>, listed: seq<Id>, now: int, cap: nat)
    requires Distinct(listed)
    ensures Distinct(Selected(rules, listed, now, cap))
  {
    if listed != [] {
      var n := |listed| - 1;
      SelectedDistinct(rules, listed[..n], now, cap);
      SelectedAreListed(rules, listed[..n], now, cap);
    }
  }

  // ------------------------------------------------------------------ fire rows across matches

  /** The key of an action's fire row, written out. */
  function PrintedRow(hash: string -> string, order: Order): RowKey {
    (order.rule.text,
     hash(order.rule.text + "|" + order.target.campaign + "|" + order.target.placement + "|"
          + order.target.windowEnd + "|" + order.deed.kind))
  }

  /** Two actions have one fire row exactly if they are of one type, for one rule, campaign, placement
      and window end. */
  lemma SameRowIff(hash: string -> string, rule: Id, t: Target, a: Deed, rule': Id, t': Target, a': Deed)
    requires Injective(hash)
    requires Supported(FireOf(rule, t, a.kind)) && Supported(FireOf(rule', t', a'.kind))
    ensures RowOf(Keys(RowKeyOf(hash), rule, t), a) == RowOf(Keys(RowKeyOf(hash), rule', t'), a')
            <==> rule == rule' && t.campaign == t'.campaign && t.placement == t'.placement
                 && t.windowEnd == t'.windowEnd && a.kind == a'.kind
  {
    if RowOf(Keys(RowKeyOf(hash), rule, t), a) == RowOf(Keys(RowKeyOf(hash), rule', t'), a') {
      SupportedUnambiguous(FireOf(rule, t, a.kind), FireOf(rule', t', a'.kind));
    }
  }

  lemma RowIsPrinted(hash: string -> string, order: Order)
    ensures RowOf(Keys(RowKeyOf(hash), order.rule, order.target), order.deed) == PrintedRow(hash, order)
  {
    assert Preimage(FireOf(order.rule, order.target, order.deed.kind))
        == order.rule.text + "|" + order.target.campaign + "|" + order.target.placement + "|"
           + order.target.windowEnd + "|" + order.deed.kind;
  }

  /** The key is the service's, and the matches are ones it can produce. */
  ghost predicate ProperWorks(hash: string -> string, key: Fire -> RowKey, works: seq<Work>) {
    && Injective(hash) && key == RowKeyOf(hash)
    && forall i :: 0 <= i < |works| ==> Proper(hash, KeysOf(key, works[i]), works[i].actions)
  }

  /** No two matches of one rule point to one target. */
  ghost predicate Apart(works: seq<Work>) {
    forall i, j :: 0 <= i < j < |works| ==> works[i].rule != works[j].rule || works[i].target != works[j].target
  }

  ghost predicate Puts(key: Fire -> RowKey, work: Work, row: RowKey) {
    exists deed :: deed in work.actions && RowOf(KeysOf(key, work), deed) == row
  }

  lemma {:induction false} FiresAfterIff(key: Fire -> RowKey, works: seq<Work>, fires: set<RowKey>, row: RowKey)
    ensures row in FiresAfter(key, works, fires)
            <==> row in fires || exists i :: 0 <= i < |works| && Puts(key, works[i], row)
  {
    if works != [] {
      var n := |works| - 1;
      FiresAfterIff(key, works[..n], fires, row);
      assert row in FiresAfter(key, works, fires)
             <==> row in FiresAfter(key, works[..n], fires) || Puts(key, works[n], row);
      assert forall i :: 0 <= i < n ==> works[..n][i] == works[i];
    }
  }

  /** The matches before one do not put its rows there. */
  lemma EarlierPutOthers(hash: string -> string, key: Fire -> RowKey, works: seq<Work>, fires: set<RowKey>, deed: Deed)
    requires works != [] && ProperWorks(hash, key, works) && Apart(works) && deed in works[|works| - 1].actions
    ensures var n := |works| - 1;
            var row := RowOf(KeysOf(key, works[n]), deed);
            row in FiresAfter(key, works[..n], fires) <==> row in fires
  {
    var n := |works| - 1;
    var last, row := works[n], RowOf(KeysOf(key, works[n]), deed);
    FiresAfterIff(key, works[..n], fires, row);
    forall i | 0 <= i < n ensures !Puts(key, works[i], row) {
      if Puts(key, works[i], row) {
        var other :| other in works[i].actions && RowOf(KeysOf(key, works[i]), other) == row;
        SameRowIff(hash, works[i].rule, works[i].target, other, last.rule, last.target, deed);
        assert false;
      }
    }
  }

  lemma {:induction false} SameRowsSameCarried(keys: Keys, actions: seq<Deed>, fires: set<RowKey>, fires': set<RowKey>)
    requires forall deed :: deed in actions ==> (RowOf(keys, deed) in fires <==> RowOf(keys, deed) in fires')
    ensures Carried(keys, actions, fires) == Carried(keys, actions, fires')
  {
    if actions != [] {
      SameRowsSameCarried(keys, actions[..|actions| - 1], fires, fires');
    }
  }

  /** For each match by itself, what is carried out given the rows there were at the beginning. */
  function Separately(key: Fire -> RowKey, works: seq<Work>, fires: set<RowKey>): seq<Order> {
    if works == [] then []
    else
      var n := |works| - 1;
      Separately(key, works[..n], fires)
      + OrdersOf(KeysOf(key, works[n]), Carried(KeysOf(key, works[n]), works[n].actions, fires))
  }

  /** Matches do not get in each other's way: with a collision-free hash and different targets, what is
      begun is, match after match, what each would begin alone. */
  lemma {:induction false} MatchesAreSeparate(hash: string -> string, key: Fire -> RowKey, works: seq<Work>,
                                              fires: set<RowKey>)
    requires ProperWorks(hash, key, works) && Apart(works)
    ensures Begins(key, works, fires) == Separately(key, works, fires)
  {
    if works != [] {
      var n := |works| - 1;
      MatchesAreSeparate(hash, key, works[..n], fires);
      forall deed | deed in works[n].actions
        ensures RowOf(KeysOf(key, works[n]), deed) in FiresAfter(key, works[..n], fires)
                <==> RowOf(KeysOf(key, works[n]), deed) in fires
      {
        EarlierPutOthers(hash, key, works, fires, deed);
      }
      SameRowsSameCarried(KeysOf(key, works[n]), works[n].actions, FiresAfter(key, works[..n], fires), fires);
    }
  }

  /** The order is to carry out the first action of its type among those of the match. */
  ghost predicate AsksFor(work: Work, order: Order) {
    && work.rule == order.rule && work.target == order.target
    && exists k :: 0 <= k < |work.actions| && work.actions[k] == order.deed && FirstOfType(work.actions, k)
  }

  /** An action is begun exactly if a match asks for it and its row was not there at the beginning. */
  lemma {:induction false} BegunIff(hash: string -> string, key: Fire -> RowKey, works: seq<Work>, fires: set<RowKey>,
                                    order: Order)
    requires ProperWorks(hash, key, works) && Apart(works)
    ensures order in Begins(key, works, fires)
            <==> PrintedRow(hash, order) !in fires && exists i :: 0 <= i < |works| && AsksFor(works[i], order)
  {
    MatchesAreSeparate(hash, key, works, fires);
    SeparatelyIff(hash, key, works, fires, order);
  }

  lemma {:induction false} SeparatelyIff(hash: string -> string, key: Fire -> RowKey, works: seq<Work>,
                                         fires: set<RowKey>, order: Order)
    requires ProperWorks(hash, key, works)
    ensures order in Separately(key, works, fires)
            <==> PrintedRow(hash, order) !in fires && exists i :: 0 <= i < |works| && AsksFor(works[i], order)
  {
    if works != [] {
      var n := |works| - 1;
      SeparatelyIff(hash, key, works[..n], fires, order);
      OneWorkIff(hash, key, works[n], fires, order);
      AskedSnoc(works, order);
    }
  }

  lemma {:induction false} AskedSnoc(works: seq<Work>, order: Order)
    requires works != []
    ensures var n := |works| - 1;
            (exists i :: 0 <= i < |works| && AsksFor(works[i], order))
            <==> (exists i :: 0 <= i < n && AsksFor(works[..n][i], order)) || AsksFor(works[n], order)
  {
    var n := |works| - 1;
    if i :| 0 <= i < n && AsksFor(works[i], order) {
      assert AsksFor(works[..n][i], order);
    }
  }

  lemma {:induction false} OneWorkIff(hash: string -> string, key: Fire -> RowKey, work: Work, fires: set<RowKey>,
                                      order: Order)
    requires Injective(hash) && key == RowKeyOf(hash) && Proper(hash, KeysOf(key, work), work.actions)
    ensures order in OrdersOf(KeysOf(key, work), Carried(KeysOf(key, work), work.actions, fires))
            <==> PrintedRow(hash, order) !in fires && AsksFor(work, order)
  {
    var keys := KeysOf(key, work);
    var deeds := Carried(keys, work.actions, fires);
    CarriedOutIff(hash, keys, work.actions, fires, order.deed);
    OrdersIff(keys, deeds, order);
    RowIsPrinted(hash, order);
  }

  lemma OrdersIff(keys: Keys, deeds: seq<Deed>, order: Order)
    ensures order in OrdersOf(keys, deeds)
            <==> order.rule == keys.rule && order.target == keys.target && order.deed in deeds
  {
    if order.rule == keys.rule && order.target == keys.target && order.deed in deeds {
      var k :| 0 <= k < |deeds| && deeds[k] == order.deed;
      assert OrdersOf(keys, deeds)[k] == order;
    }
  }

  /** A match carries out its actions in the order of the rule. */
  lemma {:induction false} CarriedInOrder(keys: Keys, actions: seq<Deed>, fires: set<RowKey>)
    ensures Subsequence(Carried(keys, actions, fires), actions)
  {
    if actions != [] {
      var n := |actions| - 1;
      CarriedInOrder(keys, actions[..n], fires);
      SubsequenceSnoc(Carried(keys, actions[..n], fires), actions[..n], actions[n]);
      assert actions[..n] + [actions[n]] == actions;
      assert Carried(keys, actions[..n], fires) + [] == Carried(keys, actions[..n], fires);
    }
  }

  // ------------------------------------------------------------------ a whole tick

  /** The evaluated rules are different ones, and so are the targets found for each; all fires are ones
      the service can produce. */
  ghost predicate ProperTick(rules: map<Id, Rule>, found: map<Id, seq<Target>>, evaluated: seq<Id>) {
    && Distinct(evaluated)
    && (forall id :: id in evaluated ==> id in rules && ProperRule(id, rules[id], MatchesOf(found, id)))
  }

  ghost predicate ProperRule(id: Id, row: Rule, matches: seq<Target>) {
    && (forall i, j :: 0 <= i < j < |matches| ==> matches[i] != matches[j])
    && (forall target, deed :: target in matches && deed in row.actions ==> Supported(FireOf(id, target, deed.kind)))
  }

  /** The work is a match of an evaluated rule that is not cooling. */
  ghost predicate IsDue(rules: map<Id, Rule>, now: int, found: map<Id, seq<Target>>, evaluated: seq<Id>, work: Work) {
    && work.rule in evaluated && work.rule in rules && !Cooling(rules[work.rule], now)
    && work.target in MatchesOf(found, work.rule) && work.actions == rules[work.rule].actions
  }

  lemma WorksNowIff(row: Rule, rule: Id, now: int, matches: seq<Target>, work: Work)
    ensures work in WorksNow(row, rule, now, matches)
            <==> work.rule == rule && !Cooling(row, now) && work.target in matches && work.actions == row.actions
  {
    if work.rule == rule && !Cooling(row, now) && work.target in matches && work.actions == row.actions {
      var m :| 0 <= m < |matches| && matches[m] == work.target;
      assert WorksNow(row, rule, now, matches)[m] == work;
    }
  }

  lemma {:induction false} TickWorksIff(rules: map<Id, Rule>, now: int, found: map<Id, seq<Target>>, evaluated: seq<Id>,
                                        work: Work)
    ensures work in TickWorks(rules, now, found, evaluated) <==> IsDue(rules, now, found, evaluated, work)
  {
    if evaluated != [] {
      var n := |evaluated| - 1;
      TickWorksIff(rules, now, found, evaluated[..n], work);
      if evaluated[n] in rules {
        WorksNowIff(rules[evaluated[n]], evaluated[n], now, MatchesOf(found, evaluated[n]), work);
      }
      assert work.rule in evaluated <==> work.rule in evaluated[..n] || work.rule == evaluated[n];
    }
  }

  lemma {:induction false} TickWorksApart(rules: map<Id, Rule>, now: int, found: map<Id, seq<Target>>,
                                          evaluated: seq<Id>)
    requires ProperTick(rules, found, evaluated)
    ensures Apart(TickWorks(rules, now, found, evaluated))
  {
    if evaluated != [] {
      var n := |evaluated| - 1;
      var id := evaluated[n];
      TickWorksApart(rules, now, found, evaluated[..n]);
      var front := TickWorks(rules, now, found, evaluated[..n]);
      var more := WorksNow(rules[id], id, now, MatchesOf(found, id));
      forall work | work in front ensures work.rule != id {
        TickWorksIff(rules, now, found, evaluated[..n], work);
      }
      assert forall j :: 0 <= j < |more| ==> more[j].rule == id;
      ApartJoined(front, more, id);
    }
  }

  lemma ApartJoined(front: seq<Work>, more: seq<Work>, id: Id)
    requires Apart(front) && Apart(more)
    requires (forall work :: work in front ==> work.rule != id) && forall j :: 0 <= j < |more| ==> more[j].rule == id
    ensures Apart(front + more)
  {
    forall i, j | 0 <= i < j < |front + more|
      ensures (front + more)[i].rule != (front + more)[j].rule || (front + more)[i].target != (front + more)[j].target
    {
      if i < |front| && j >= |front| {
        assert (front + more)[i] in front;
      }
    }
  }

  lemma TickWorksProper(hash: string -> string, key: Fire -> RowKey, rules: map<Id, Rule>, now: int,
                        found: map<Id, seq<Target>>, evaluated: seq<Id>)
    requires Injective(hash) && key == RowKeyOf(hash) && ProperTick(rules, found, evaluated)
    ensures ProperWorks(hash, key, TickWorks(rules, now, found, evaluated))
  {
    var works := TickWorks(rules, now, found, evaluated);
    forall i | 0 <= i < |works| ensures Proper(hash, KeysOf(key, works[i]), works[i].actions) {
      TickWorksIff(rules, now, found, evaluated, works[i]);
      assert ProperRule(works[i].rule, rules[works[i].rule], MatchesOf(found, works[i].rule));
    }
  }

  /** The order is to carry out the first action of its type of an evaluated rule, for a target found for
      it, and the rule never fired or did so at least its cooldown ago. */
  ghost predicate Wanted(rules: map<Id, Rule>, now: int, found: map<Id, seq<Target>>, evaluated: seq<Id>,
                         order: Order) {
    && order.rule in evaluated && order.rule in rules && order.rule in found && order.target in found[order.rule]
    && (var row := rules[order.rule];
        && (row.lastFired == None || now - row.lastFired.value >= row.cooldown * 60)
        && exists k :: 0 <= k < |row.actions| && row.actions[k] == order.deed && FirstOfType(row.actions, k))
  }

  lemma WantedIff(rules: map<Id, Rule>, now: int, found: map<Id, seq<Target>>, evaluated: seq<Id>, order: Order)
    ensures var works := TickWorks(rules, now, found, evaluated);
            Wanted(rules, now, found, evaluated, order) <==> exists i :: 0 <= i < |works| && AsksFor(works[i], order)
  {
    var works := TickWorks(rules, now, found, evaluated);
    if Wanted(rules, now, found, evaluated, order) {
      var work := Work(order.rule, order.target, rules[order.rule].actions);
      TickWorksIff(rules, now, found, evaluated, work);
      assert AsksFor(work, order);
    }
    if i :| 0 <= i < |works| && AsksFor(works[i], order) {
      TickWorksIff(rules, now, found, evaluated, works[i]);
    }
  }

  /** A tick in which nothing failed has begun exactly the wanted actions whose fire row was not there when
      it began, whatever rows its other matches have put there. */
  lemma TickBegins(hash: string -> string, before: Snapshot, now: int, found: map<Id, seq<Target>>,
                   evaluated: seq<Id>, fires: set<RowKey>, log: seq<Entry>, order: Order)
    requires Injective(hash) && ProperTick(before.rules, found, evaluated)
    requires Acted(RowKeyOf(hash), before, now, found, evaluated, fires, log)
    ensures Begun(before.log) <= Begun(log)
    ensures order in Begun(log)[|Begun(before.log)|..]
            <==> Wanted(before.rules, now, found, evaluated, order) && PrintedRow(hash, order) !in before.fires
  {
    var key := RowKeyOf(hash);
    var works := TickWorks(before.rules, now, found, evaluated);
    TickWorksProper(hash, key, before.rules, now, found, evaluated);
    TickWorksApart(before.rules, now, found, evaluated);
    BegunIff(hash, key, works, before.fires, order);
    WantedIff(before.rules, now, found, evaluated, order);
    assert Begun(log)[|Begun(before.log)|..] == Begins(key, works, before.fires);
  }
}
