/** The actions of one match: which of them are carried out, given the fire rows that are there. */
module AutomationMatch {
  import opened AutomationActions
  import opened AutomationFires
  import AccessText

  /** A UUID, by its printed form. */
  datatype Id = Id(text: string)

  /** Where a match points; the window end is in printed form. */
  datatype Target = Target(campaign: string, placement: string, windowEnd: string)

  function FireOf(rule: Id, target: Target, kind: string): Fire {
    Fire(rule.text, target.campaign, target.placement, target.windowEnd, kind)
  }

  /** The keys of a match's fire rows. */
  datatype Keys = Keys(key: Fire -> RowKey, rule: Id, target: Target)

  function RowOf(keys: Keys, deed: Deed): RowKey {
    keys.key(FireOf(keys.rule, keys.target, deed.kind))
  }

  /** The fire rows after all the actions. */
  function RowsAfter(keys: Keys, actions: seq<Deed>, fires: set<RowKey>): set<RowKey> {
    fires + set deed | deed in actions :: RowOf(keys, deed)
  }

  /** The actions carried out if nothing fails: one whose row is there already is passed over. */
  function Carried(keys: Keys, actions: seq<Deed>, fires: set<RowKey>): seq<Deed> {
    if actions == [] then []
    else
      var front, last := actions[..|actions| - 1], actions[|actions| - 1];
      Carried(keys, front, fires) + if RowOf(keys, last) in RowsAfter(keys, front, fires) then [] else [last]
  }

  /** An action begun for a match. */
  datatype Order = Order(rule: Id, target: Target, deed: Deed)

  function OrdersOf(keys: Keys, deeds: seq<Deed>): seq<Order> {
    seq(|deeds|, i requires 0 <= i < |deeds| => Order(keys.rule, keys.target, deeds[i]))
  }

  lemma OrdersSnoc(keys: Keys, deeds: seq<Deed>, deed: Deed)
    ensures OrdersOf(keys, deeds + [deed]) == OrdersOf(keys, deeds) + [Order(keys.rule, keys.target, deed)]
  {
  }

  /** One action more. */
  lemma {:induction false} CarriedSnoc(keys: Keys, actions: seq<Deed>, fires: set<RowKey>, i: nat)
    requires i < |actions|
    ensures RowsAfter(keys, actions[..i + 1], fires) == RowsAfter(keys, actions[..i], fires) + {RowOf(keys, actions[i])}
    ensures Carried(keys, actions[..i + 1], fires) == Carried(keys, actions[..i], fires)
         + if RowOf(keys, actions[i]) in RowsAfter(keys, actions[..i], fires) then [] else [actions[i]]
  {
    assert actions[..i + 1][..i] == actions[..i];
    assert actions[..i + 1] == actions[..i] + [actions[i]];
  }

  lemma {:induction false} CarriedGrows(keys: Keys, actions: seq<Deed>, fires: set<RowKey>, i: nat)
    requires i < |actions|
    ensures Carried(keys, actions[..i], fires) <= Carried(keys, actions[..i + 1], fires)
  {
    CarriedSnoc(keys, actions, fires, i);
  }

  /** Stopping early carries out a first part. */
  lemma {:induction false} CarriedFront(keys: Keys, actions: seq<Deed>, fires: set<RowKey>, i: nat)
    requires i <= |actions|
    ensures Carried(keys, actions[..i], fires) <= Carried(keys, actions, fires)
    decreases |actions| - i
  {
    if i < |actions| {
      CarriedFront(keys, actions, fires, i + 1);
      CarriedGrows(keys, actions, fires, i);
    } else {
      assert actions[..i] == actions;
    }
  }

  // ------------------------------------------------------------------ match after match

  /** A match of a rule, and what is to be done about it. */
  datatype Work = Work(rule: Id, target: Target, actions: seq<Deed>)

  function KeysOf(key: Fire -> RowKey, work: Work): Keys {
    Keys(key, work.rule, work.target)
  }

  function WorksOf(rule: Id, actions: seq<Deed>, matches: seq<Target>): seq<Work> {
    seq(|matches|, m requires 0 <= m < |matches| => Work(rule, matches[m], actions))
  }

  /** The fire rows after all the matches, and the actions begun, if nothing fails: each match finds the
      rows of those before it. */
  function FiresAfter(key: Fire -> RowKey, works: seq<Work>, fires: set<RowKey>): set<RowKey> {
    if works == [] then fires
    else
      var front, last := works[..|works| - 1], works[|works| - 1];
      RowsAfter(KeysOf(key, last), last.actions, FiresAfter(key, front, fires))
  }

  function Begins(key: Fire -> RowKey, works: seq<Work>, fires: set<RowKey>): seq<Order> {
    if works == [] then []
    else
      var front, last := works[..|works| - 1], works[|works| - 1];
      Begins(key, front, fires)
      + OrdersOf(KeysOf(key, last), Carried(KeysOf(key, last), last.actions, FiresAfter(key, front, fires)))
  }

  lemma OneWork(key: Fire -> RowKey, work: Work, fires: set<RowKey>)
    ensures FiresAfter(key, [work], fires) == RowsAfter(KeysOf(key, work), work.actions, fires)
    ensures Begins(key, [work], fires) == OrdersOf(KeysOf(key, work), Carried(KeysOf(key, work), work.actions, fires))
  {
    assert [work][..0] == [];
  }

  lemma {:induction false} BeginsAppend(key: Fire -> RowKey, works: seq<Work>, more: seq<Work>, fires: set<RowKey>)
    ensures FiresAfter(key, works + more, fires) == FiresAfter(key, more, FiresAfter(key, works, fires))
    ensures Begins(key, works + more, fires)
         == Begins(key, works, fires) + Begins(key, more, FiresAfter(key, works, fires))
  {
    if more == [] {
      assert works + more == works;
    } else {
      var n := |more| - 1;
      assert (works + more)[..|works + more| - 1] == works + more[..n];
      BeginsAppend(key, works, more[..n], fires);
      assert Begins(key, works + more, fires) == Begins(key, works + more[..n], fires)
          + OrdersOf(KeysOf(key, more[n]), Carried(KeysOf(key, more[n]), more[n].actions,
                                                   FiresAfter(key, works + more[..n], fires)));
    }
  }

  // ------------------------------------------------------------------ which actions those are

  /** The key is the service's, and the match one the service can produce. */
  ghost predicate Proper(hash: string -> string, keys: Keys, actions: seq<Deed>) {
    && Injective(hash) && keys.key == RowKeyOf(hash)
    && forall deed :: deed in actions ==> Supported(FireOf(keys.rule, keys.target, deed.kind))
  }

  /** Two actions of a match have one row exactly when they have one type. */
  lemma OneRowPerType(hash: string -> string, keys: Keys, actions: seq<Deed>, a: Deed, b: Deed)
    requires Proper(hash, keys, actions) && a in actions && b in actions
    ensures RowOf(keys, a) == RowOf(keys, b) <==> a.kind == b.kind
  {
    if RowOf(keys, a) == RowOf(keys, b) {
      SupportedUnambiguous(FireOf(keys.rule, keys.target, a.kind), FireOf(keys.rule, keys.target, b.kind));
    }
  }

  /** The first action of its type. */
  predicate FirstOfType(actions: seq<Deed>, k: nat)
    requires k < |actions|
  {
    forall j :: 0 <= j < k ==> actions[j].kind != actions[k].kind
  }

  predicate TypesDistinct(actions: seq<Deed>) {
    forall k :: 0 <= k < |actions| ==> FirstOfType(actions, k)
  }

  predicate NoneThere(keys: Keys, actions: seq<Deed>, fires: set<RowKey>) {
    forall deed :: deed in actions ==> RowOf(keys, deed) !in fires
  }

  lemma PassedOverIff(hash: string -> string, keys: Keys, actions: seq<Deed>, fires: set<RowKey>)
    requires Proper(hash, keys, actions) && actions != []
    ensures var n := |actions| - 1;
            RowOf(keys, actions[n]) !in RowsAfter(keys, actions[..n], fires)
            <==> FirstOfType(actions, n) && RowOf(keys, actions[n]) !in fires
  {
    var n := |actions| - 1;
    forall j | 0 <= j < n
      ensures RowOf(keys, actions[j]) == RowOf(keys, actions[n]) <==> actions[j].kind == actions[n].kind
    {
      OneRowPerType(hash, keys, actions, actions[j], actions[n]);
    }
    assert forall j :: 0 <= j < n ==> actions[..n][j] == actions[j];
  }

  /** An action is carried out exactly when it is the first of its type and its row is not there yet. */
  lemma {:induction false} CarriedOutIff(hash: string -> string, keys: Keys, actions: seq<Deed>, fires: set<RowKey>,
                                         deed: Deed)
    requires Proper(hash, keys, actions)
    ensures deed in Carried(keys, actions, fires)
            <==> RowOf(keys, deed) !in fires
                 && exists k :: 0 <= k < |actions| && actions[k] == deed && FirstOfType(actions, k)
  {
    if actions != [] {
      var n := |actions| - 1;
      var front := actions[..n];
      CarriedOutIff(hash, keys, front, fires, deed);
      PassedOverIff(hash, keys, actions, fires);
      FirstInFront(actions, deed);
    }
  }

  lemma FirstInFront(actions: seq<Deed>, deed: Deed)
    requires actions != []
    ensures var n := |actions| - 1;
            (exists k :: 0 <= k < |actions| && actions[k] == deed && FirstOfType(actions, k))
            <==> (exists k :: 0 <= k < n && actions[..n][k] == deed && FirstOfType(actions[..n], k))
                 || (actions[n] == deed && FirstOfType(actions, n))
  {
    var n := |actions| - 1;
    forall k | 0 <= k < n ensures FirstOfType(actions, k) <==> FirstOfType(actions[..n], k) {
    }
  }

  lemma TypesDistinctSnoc(actions: seq<Deed>)
    requires actions != []
    ensures var n := |actions| - 1;
            TypesDistinct(actions) <==> TypesDistinct(actions[..n]) && FirstOfType(actions, n)
  {
    var n := |actions| - 1;
    forall k | 0 <= k < n ensures FirstOfType(actions, k) <==> FirstOfType(actions[..n], k) {
    }
  }

  lemma NoneThereSnoc(keys: Keys, actions: seq<Deed>, fires: set<RowKey>)
    requires actions != []
    ensures var n := |actions| - 1;
            NoneThere(keys, actions, fires)
            <==> NoneThere(keys, actions[..n], fires) && RowOf(keys, actions[n]) !in fires
  {
    var n := |actions| - 1;
    forall deed ensures deed in actions <==> deed in actions[..n] || deed == actions[n] {
    }
  }

  lemma SameWhenExtended<T>(some: seq<T>, all: seq<T>, more: seq<T>)
    requires all != [] && |some| <= |all| - 1 && more in {[], [all[|all| - 1]]}
    ensures |some + more| <= |all|
    ensures some + more == all <==> some == all[..|all| - 1] && more != []
  {
    if some + more == all {
      assert |more| == 1 && some == (some + more)[..|some|];
    }
  }

  /** Without errors all the actions of a match are carried out exactly when no two have the same type
      and none of their rows is there yet. */
  lemma {:induction false} AllCarriedOutIff(hash: string -> string, keys: Keys, actions: seq<Deed>, fires: set<RowKey>)
    requires Proper(hash, keys, actions)
    ensures |Carried(keys, actions, fires)| <= |actions|
    ensures Carried(keys, actions, fires) == actions <==> TypesDistinct(actions) && NoneThere(keys, actions, fires)
  {
    if actions != [] {
      var n := |actions| - 1;
      AllCarriedOutIff(hash, keys, actions[..n], fires);
      PassedOverIff(hash, keys, actions, fires);
      TypesDistinctSnoc(actions);
      NoneThereSnoc(keys, actions, fires);
      SameWhenExtended(Carried(keys, actions[..n], fires), actions,
                       if RowOf(keys, actions[n]) in RowsAfter(keys, actions[..n], fires) then [] else [actions[n]]);
    }
  }

  /** The rules API accepts two notifications with different webhooks. */
  function TwoWebhooks(first: string, second: string): seq<Deed> {
    [Deed(NOTIFY, first, ""), Deed(NOTIFY, second, "")]
  }

  /** Such a rule never calls the second one, whatever rows are there. */
  lemma SecondWebhookIsNotCalled(keys: Keys, first: string, second: string, groupBy: string, fires: set<RowKey>)
    requires "http" <= AccessText.Trim(first) && "http" <= AccessText.Trim(second) && first != second
    ensures forall deed :: deed in TwoWebhooks(first, second) ==> Permitted(deed, groupBy)
    ensures Deed(NOTIFY, second, "") !in Carried(keys, TwoWebhooks(first, second), fires)
  {
    var both := TwoWebhooks(first, second);
    CarriedSnoc(keys, both, fires, 0);
    CarriedSnoc(keys, both, fires, 1);
    assert both[..2] == both && both[..0] == [];
  }
}
