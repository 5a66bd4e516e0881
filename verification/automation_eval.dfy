/** Evaluating one rule: merge the fraud counts into the placement rows, group, compare. */
module AutomationEval {
  import opened Options
  import opened AutomationMetrics

  datatype Key = Key(campaign: string, placement: string)

  datatype Row = Row(key: Key, t: Totals)

  /** The stats query groups by campaign and placement, so its rows have distinct keys. */
  ghost predicate Distinct(rows: seq<Row>) {
    forall i, j :: 0 <= i < j < |rows| ==> rows[i].key != rows[j].key
  }

  /** Rows by key: what is left of a result set when its order is forgotten. */
  function RowMap(rows: seq<Row>): map<Key, Totals> {
    if rows == [] then map[] else RowMap(rows[..|rows| - 1])[rows[|rows| - 1].key := rows[|rows| - 1].t]
  }

  lemma {:induction false} RowMapKeys(rows: seq<Row>)
    ensures forall k :: k in RowMap(rows) <==> exists i :: 0 <= i < |rows| && rows[i].key == k
  {
    if rows != [] {
      var front := rows[..|rows| - 1];
      RowMapKeys(front);
      forall k | k in RowMap(rows) ensures exists i :: 0 <= i < |rows| && rows[i].key == k {
        if k != rows[|rows| - 1].key {
          assert k in RowMap(front);
          var i :| 0 <= i < |front| && front[i].key == k;
          assert rows[i].key == k;
        }
      }
      forall i | 0 <= i < |rows| ensures rows[i].key in RowMap(rows) {
        if i < |front| {
          assert front[i].key in RowMap(front);
        }
      }
    }
  }

  lemma {:induction false} RowMapAt(rows: seq<Row>, i: nat)
    requires Distinct(rows) && i < |rows|
    ensures rows[i].key in RowMap(rows) && RowMap(rows)[rows[i].key] == rows[i].t
  {
    if i < |rows| - 1 {
      RowMapAt(rows[..|rows| - 1], i);
    }
  }

  lemma RowMapSnoc(rows: seq<Row>, r: Row)
    ensures RowMap(rows + [r]) == RowMap(rows)[r.key := r.t]
  {
    assert (rows + [r])[..|rows|] == rows;
  }

  lemma {:induction false} RowMapUpdate(rows: seq<Row>, i: nat, t: Totals)
    requires Distinct(rows) && i < |rows|
    ensures RowMap(rows[i := Row(rows[i].key, t)]) == RowMap(rows)[rows[i].key := t]
    ensures Distinct(rows[i := Row(rows[i].key, t)])
  {
    var front, last := rows[..|rows| - 1], rows[|rows| - 1];
    var next := rows[i := Row(rows[i].key, t)];
    if i < |front| {
      RowMapUpdate(front, i, t);
      assert next[..|rows| - 1] == front[i := Row(front[i].key, t)];
      assert last.key != rows[i].key;
    } else {
      assert next[..|rows| - 1] == front;
    }
  }

  // ------------------------------------------------------------------ merging fraud counts

  /** The fraud query yields rows keyed by themselves; blank placements are ignored by the merge. */
  function Named(fraud: map<Key, Totals>): set<Key> {
    set k | k in fraud && k.placement != ""
  }

  function WithFraud(t: Totals, f: Totals): Totals {
    t.(fraud := f.fraud, silent := f.silent)
  }

  /** The merge as a function of maps: known keys get the two fraud columns replaced, unknown named
      keys are added. Nothing depends on an order. */
  function Merged(base: map<Key, Totals>, fraud: map<Key, Totals>): map<Key, Totals> {
    map k | k in base.Keys + Named(fraud) ::
      if k in Named(fraud) then (if k in base then WithFraud(base[k], fraud[k]) else fraud[k]) else base[k]
  }

  /** What one named fraud row does to the rows so far. */
  function MergeOne(m: map<Key, Totals>, k: Key, f: Totals): map<Key, Totals> {
    m[k := if k in m then WithFraud(m[k], f) else f]
  }

  /** Appending to the slice in whatever order the map is walked comes to the same merged map. */
  method MergeFraud(rows: seq<Row>, fraud: map<Key, Totals>) returns (out: seq<Row>)
    requires Distinct(rows)
    ensures Distinct(out) && RowMap(out) == Merged(RowMap(rows), fraud)
    ensures SameKeys(rows, out)
  {
    if |fraud| == 0 {
      assert fraud == map[];
      return rows;
    }
    var index := IndexRows(rows);
    out := rows;
    var todo := fraud.Keys;
    ghost var done: map<Key, Totals> := map[];
    assert Merged(RowMap(rows), done) == RowMap(rows);
    while todo != {}
      invariant todo <= fraud.Keys && done == map k | k in fraud && k !in todo :: fraud[k]
      invariant Distinct(out) && RowMap(out) == Merged(RowMap(rows), done)
      invariant SameKeys(rows, out) && Indexed(index, out)
    {
      var k :| k in todo;
      MergedStep(RowMap(rows), done, k, fraud[k]);
      todo := todo - {k};
      done := done[k := fraud[k]];
      if k.placement != "" {
        out, index := MergeRow(out, index, k, fraud[k]);
      }
    }
    assert done == fraud;
  }

  ghost predicate SameKeys(rows: seq<Row>, out: seq<Row>) {
    |rows| <= |out| && forall i :: 0 <= i < |rows| ==> out[i].key == rows[i].key
  }

  method MergeRow(rows: seq<Row>, index: map<Key, nat>, k: Key, f: Totals)
    returns (out: seq<Row>, index': map<Key, nat>)
    requires Distinct(rows) && Indexed(index, rows)
    ensures Distinct(out) && Indexed(index', out) && SameKeys(rows, out)
    ensures RowMap(out) == MergeOne(RowMap(rows), k, f)
  {
    RowMapKeys(rows);
    if k in index {
      var i := index[k];
      RowMapAt(rows, i);
      RowMapUpdate(rows, i, WithFraud(rows[i].t, f));
      out, index' := rows[i := Row(k, WithFraud(rows[i].t, f))], index;
    } else {
      RowMapSnoc(rows, Row(k, f));
      out := rows + [Row(k, f)];
      index' := index[k := |out| - 1];
    }
  }

  /** The index finds exactly the rows present. */
  ghost predicate Indexed(index: map<Key, nat>, rows: seq<Row>) {
    && (forall k :: k in index ==> 0 <= index[k] < |rows| && rows[index[k]].key == k)
    && (forall i :: 0 <= i < |rows| ==> rows[i].key in index)
  }

  method IndexRows(rows: seq<Row>) returns (index: map<Key, nat>)
    ensures Indexed(index, rows)
  {
    index := map[];
    for i := 0 to |rows|
      invariant forall k :: k in index ==> 0 <= index[k] < i && rows[index[k]].key == k
      invariant forall j :: 0 <= j < i ==> rows[j].key in index
    {
      index := index[rows[i].key := i];
    }
  }

  lemma MergedStep(base: map<Key, Totals>, done: map<Key, Totals>, k: Key, f: Totals)
    requires k !in done
    ensures Merged(base, done[k := f]) ==
            if k.placement == "" then Merged(base, done) else MergeOne(Merged(base, done), k, f)
  {
  }

  // ------------------------------------------------------------------ sums

  /** The exact column totals of one campaign's rows. */
  function Sum(rows: seq<Row>, campaign: string): Totals {
    if rows == [] then ZERO
    else
      var front := Sum(rows[..|rows| - 1], campaign);
      if rows[|rows| - 1].key.campaign == campaign then Plus(front, rows[|rows| - 1].t) else front
  }

  function Campaigns(rows: seq<Row>): set<string> {
    set i | 0 <= i < |rows| :: rows[i].key.campaign
  }

  lemma SumSnoc(rows: seq<Row>, i: nat, campaign: string)
    requires i < |rows|
    ensures Sum(rows[..i + 1], campaign) ==
            if rows[i].key.campaign == campaign then Plus(Sum(rows[..i], campaign), rows[i].t)
            else Sum(rows[..i], campaign)
    ensures Campaigns(rows[..i + 1]) == Campaigns(rows[..i]) + {rows[i].key.campaign}
  {
    assert rows[..i + 1][..i] == rows[..i];
    forall c | c in Campaigns(rows[..i]) + {rows[i].key.campaign} ensures c in Campaigns(rows[..i + 1]) {
      if c != rows[i].key.campaign {
        var j :| 0 <= j < i && rows[..i][j].key.campaign == c;
        assert rows[..i + 1][j].key.campaign == c;
      } else {
        assert rows[..i + 1][i].key.campaign == c;
      }
    }
  }

  /** One entry per campaign, holding its totals as the machine adds them up. */
  method AggregateCampaigns(rows: seq<Row>) returns (out: map<string, Totals>)
    ensures out.Keys == Campaigns(rows)
    ensures forall c :: c in out ==> out[c] == Wrap(Sum(rows, c))
  {
    out := map[];
    WrapInRange(ZERO);
    for i := 0 to |rows|
      invariant out.Keys == Campaigns(rows[..i])
      invariant forall c :: c in out ==> out[c] == Wrap(Sum(rows[..i], c))
      invariant forall c :: c !in out ==> Sum(rows[..i], c) == ZERO
    {
      var row := rows[i];
      var agg := if row.key.campaign in out then out[row.key.campaign] else ZERO;
      WrapAdds(Sum(rows[..i], row.key.campaign), row.t);
      forall c ensures Sum(rows[..i + 1], c) ==
                 if row.key.campaign == c then Plus(Sum(rows[..i], c), row.t) else Sum(rows[..i], c)
      {
        SumSnoc(rows, i, c);
      }
      SumSnoc(rows, i, "");
      out := out[row.key.campaign := Wrap(Plus(agg, row.t))];
    }
    assert rows[..|rows|] == rows;
  }

  function At(m: map<Key, Totals>, k: Key): Totals {
    if k in m then m[k] else ZERO
  }

  ghost function Pick(keys: set<Key>): (k: Key)
    requires keys != {}
    ensures k in keys
  {
    var k :| k in keys;
    k
  }

  /** The sum of a map over a set of keys, in whatever order they are drawn. */
  ghost function SumOver(keys: set<Key>, m: map<Key, Totals>): Totals {
    if keys == {} then ZERO else Plus(At(m, Pick(keys)), SumOver(keys - {Pick(keys)}, m))
  }

  lemma PlusSwaps(a: Totals, b: Totals, c: Totals)
    ensures Plus(a, Plus(b, c)) == Plus(b, Plus(a, c))
  {
  }

  lemma {:induction false} SumOverAny(keys: set<Key>, m: map<Key, Totals>, k: Key)
    requires k in keys
    ensures SumOver(keys, m) == Plus(At(m, k), SumOver(keys - {k}, m))
    decreases keys
  {
    var first := Pick(keys);
    if first != k {
      var rest := keys - {first} - {k};
      SumOverAny(keys - {first}, m, k);
      SumOverAny(keys - {k}, m, first);
      assert rest == keys - {k} - {first};
      PlusSwaps(At(m, first), At(m, k), SumOver(rest, m));
    }
  }

  function KeysOf(keys: set<Key>, campaign: string): set<Key> {
    set k | k in keys && k.campaign == campaign
  }

  /** Maps that agree on the keys have the same sum over them. */
  lemma {:induction false} SumOverAgrees(keys: set<Key>, m: map<Key, Totals>, n: map<Key, Totals>)
    requires forall k :: k in keys ==> At(m, k) == At(n, k)
    ensures SumOver(keys, m) == SumOver(keys, n)
    decreases keys
  {
    if keys != {} {
      SumOverAgrees(keys - {Pick(keys)}, m, n);
    }
  }

  /** Keys outside the map contribute nothing. */
  lemma {:induction false} SumOverOnly(keys: set<Key>, m: map<Key, Totals>)
    ensures SumOver(keys, m) == SumOver(keys * m.Keys, m)
    decreases keys
  {
    if keys != {} {
      var k := Pick(keys);
      SumOverOnly(keys - {k}, m);
      if k in m {
        SumOverAny(keys * m.Keys, m, k);
        assert keys * m.Keys - {k} == (keys - {k}) * m.Keys;
      } else {
        assert keys * m.Keys == (keys - {k}) * m.Keys;
      }
    }
  }

  /** Summing the slice is summing the map: the order of the rows does not matter. */
  lemma {:induction false} SumIsSumOver(rows: seq<Row>, campaign: string)
    requires Distinct(rows)
    ensures Sum(rows, campaign) == SumOver(KeysOf(RowMap(rows).Keys, campaign), RowMap(rows))
  {
    if rows != [] {
      var front, last := rows[..|rows| - 1], rows[|rows| - 1];
      SumIsSumOver(front, campaign);
      var keys := KeysOf(RowMap(front).Keys, campaign);
      LastKeyIsNew(rows);
      SumOverAgrees(keys, RowMap(front), RowMap(rows));
      var all := KeysOf(RowMap(rows).Keys, campaign);
      if last.key.campaign == campaign {
        SumOverAny(all, RowMap(rows), last.key);
        assert all - {last.key} == keys;
      } else {
        assert all == keys;
      }
    }
  }

  lemma LastKeyIsNew(rows: seq<Row>)
    requires Distinct(rows) && rows != []
    ensures rows[|rows| - 1].key !in RowMap(rows[..|rows| - 1])
  {
    var front := rows[..|rows| - 1];
    RowMapKeys(front);
    forall i | 0 <= i < |front| ensures front[i].key != rows[|rows| - 1].key {
      assert front[i] == rows[i];
    }
  }

  // ------------------------------------------------------------------ conservation

  /** What the two queries return: stats rows without fraud counts, fraud rows with nothing else. */
  ghost predicate NoFraud(base: map<Key, Totals>) {
    forall k :: k in base ==> base[k].fraud == 0 && base[k].silent == 0
  }

  ghost predicate OnlyFraud(fraud: map<Key, Totals>) {
    forall k :: k in fraud ==> fraud[k] == ZERO.(fraud := fraud[k].fraud, silent := fraud[k].silent)
  }

  function NamedRows(fraud: map<Key, Totals>): map<Key, Totals> {
    map k | k in Named(fraud) :: fraud[k]
  }

  lemma MergedIsPlus(base: map<Key, Totals>, fraud: map<Key, Totals>, k: Key)
    requires NoFraud(base) && OnlyFraud(fraud)
    ensures At(Merged(base, fraud), k) == Plus(At(base, k), At(NamedRows(fraud), k))
  {
  }

  lemma PlusRegroups(a: Totals, b: Totals, c: Totals, d: Totals)
    ensures Plus(Plus(a, b), Plus(c, d)) == Plus(Plus(a, c), Plus(b, d))
  {
  }

  lemma {:induction false} MergeConservesOver(keys: set<Key>, base: map<Key, Totals>, fraud: map<Key, Totals>)
    requires NoFraud(base) && OnlyFraud(fraud)
    ensures SumOver(keys, Merged(base, fraud)) == Plus(SumOver(keys, base), SumOver(keys, NamedRows(fraud)))
    decreases keys
  {
    if keys != {} {
      var k := Pick(keys);
      var rest := keys - {k};
      MergeConservesOver(rest, base, fraud);
      MergedIsPlus(base, fraud, k);
      PlusRegroups(At(base, k), At(NamedRows(fraud), k), SumOver(rest, base), SumOver(rest, NamedRows(fraud)));
    }
  }

  lemma KeysOfUnion(a: set<Key>, b: set<Key>, campaign: string)
    ensures KeysOf(a + b, campaign) * a == KeysOf(a, campaign)
    ensures KeysOf(a + b, campaign) * b == KeysOf(b, campaign)
  {
  }

  lemma MergeConservesMaps(base: map<Key, Totals>, fraud: map<Key, Totals>, campaign: string)
    requires NoFraud(base) && OnlyFraud(fraud)
    ensures SumOver(KeysOf(Merged(base, fraud).Keys, campaign), Merged(base, fraud))
         == Plus(SumOver(KeysOf(base.Keys, campaign), base), SumOver(KeysOf(Named(fraud), campaign), fraud))
  {
    var named := NamedRows(fraud);
    assert Merged(base, fraud).Keys == base.Keys + Named(fraud);
    assert named.Keys == Named(fraud);
    var keys := KeysOf(base.Keys + Named(fraud), campaign);
    MergeConservesOver(keys, base, fraud);
    SumOverOnly(keys, base);
    SumOverOnly(keys, named);
    KeysOfUnion(base.Keys, Named(fraud), campaign);
    SumOverAgrees(KeysOf(Named(fraud), campaign), named, fraud);
  }

  /** Merging then aggregating loses and invents nothing: a campaign's totals are its stats rows'
      totals plus its share of the fraud map, placement by placement. */
  lemma MergeConserves(rows: seq<Row>, fraud: map<Key, Totals>, out: seq<Row>, campaign: string)
    requires Distinct(rows) && NoFraud(RowMap(rows)) && OnlyFraud(fraud)
    requires Distinct(out) && RowMap(out) == Merged(RowMap(rows), fraud)
    ensures Sum(out, campaign) == Plus(Sum(rows, campaign), SumOver(KeysOf(Named(fraud), campaign), fraud))
  {
    SumIsSumOver(rows, campaign);
    SumIsSumOver(out, campaign);
    MergeConservesMaps(RowMap(rows), fraud, campaign);
  }

  /** If every placement of a campaign has something to divide by and breaches a rate threshold, the
      campaign as a whole breaches it. */
  lemma {:induction false} CampaignBreaches(rows: seq<Row>, campaign: string, metric: string, operator: string,
                                            threshold: real)
    requires IsRate(metric)
    requires forall i :: 0 <= i < |rows| && rows[i].key.campaign == campaign ==>
               Whole(metric, rows[i].t) > 0 && Breached(operator, Observed(metric, rows[i].t), threshold)
    ensures campaign in Campaigns(rows) ==>
              && Whole(metric, Sum(rows, campaign)) > 0
              && Breached(operator, Observed(metric, Sum(rows, campaign)), threshold)
    ensures campaign !in Campaigns(rows) ==> Sum(rows, campaign) == ZERO
  {
    if rows != [] {
      var n := |rows| - 1;
      var front, last := rows[..n], rows[n];
      assert rows[..n + 1] == rows;
      SumSnoc(rows, n, campaign);
      CampaignBreaches(front, campaign, metric, operator, threshold);
      if last.key.campaign == campaign {
        if campaign in Campaigns(front) {
          BreachPools(metric, operator, threshold, Sum(front, campaign), last.t);
        } else {
          assert Plus(ZERO, last.t) == last.t;
        }
      }
    }
  }

  // ------------------------------------------------------------------ the evaluation

  /** Times are in seconds. */
  datatype Rule = Rule(
    id: string, metric: string, operator: string, threshold: real, windowMinutes: int, groupBy: string)

  datatype Match = Match(rule: string, key: Key, observed: real, windowStart: int, windowEnd: int)

  predicate NeedsFraud(metric: string) {
    metric in {"fraud_reject_count", "fraud_reject_rate", "ivt_rate", "silent_reject_rate"}
  }

  /** The fraud counts are asked for exactly if they can change what the metric reads. */
  lemma NeedsFraudIff(metric: string)
    ensures NeedsFraud(metric) <==> exists t, f :: Observed(metric, WithFraud(t, f)) != Observed(metric, t)
  {
    var t, f := ZERO.(clicks := 1), Totals(0, 0, 0, 0, 1, 1);
    if NeedsFraud(metric) {
      ObservedReads(metric, t);
      ObservedReads(metric, WithFraud(t, f));
      assert Observed(metric, WithFraud(t, f)) != Observed(metric, t);
    } else {
      forall t, f ensures Observed(metric, WithFraud(t, f)) == Observed(metric, t) {
      }
    }
  }

  /** Of a placement in both results the merge has the rejects of the fraud query and the rest of the
      stats query; one in a single result is as it is there; blank ones in the fraud query are ignored. */
  lemma MergedColumns(rows: map<Key, Totals>, fraud: map<Key, Totals>, k: Key)
    ensures k in Merged(rows, fraud) <==> k in rows || (k in fraud && k.placement != "")
    ensures k in rows && k in fraud && k.placement != "" ==>
              Merged(rows, fraud)[k] == Totals(rows[k].spend, rows[k].profit, rows[k].clicks, rows[k].conversions,
                                               fraud[k].fraud, fraud[k].silent)
    ensures k in rows && (k !in fraud || k.placement == "") ==> Merged(rows, fraud)[k] == rows[k]
    ensures k !in rows && k in fraud && k.placement != "" ==> Merged(rows, fraud)[k] == fraud[k]
  {
  }

  /** The window ends at the last whole minute, so every evaluation within a minute shares its end. */
  function WindowBounds(now: int, windowMinutes: int): (w: (int, int))
    ensures w.1 % 60 == 0 && w.1 <= now < w.1 + 60
    ensures w.0 + windowMinutes * 60 == w.1
    ensures forall later :: now <= later < w.1 + 60 ==> later - later % 60 == w.1
  {
    var end := now - now % 60;
    (end - windowMinutes * 60, end)
  }

  /** The rows a rule looks at, as a map. */
  function Looked(rule: Rule, rows: map<Key, Totals>, fraud: map<Key, Totals>): map<Key, Totals> {
    if NeedsFraud(rule.metric) then Merged(rows, fraud) else rows
  }

  /** The groups a rule is evaluated on: single placements, or campaigns with their added-up totals. */
  ghost function Groups(rule: Rule, looked: map<Key, Totals>): map<Key, Totals> {
    if rule.groupBy == "campaign" then
      map k | k in (set x | x in looked :: Key(x.campaign, "")) ::
        Wrap(SumOver(KeysOf(looked.Keys, k.campaign), looked))
    else looked
  }

  predicate Fires(rule: Rule, t: Totals) {
    Breached(rule.operator, Observed(rule.metric, t), rule.threshold)
  }

  function MatchFor(rule: Rule, key: Key, t: Totals, now: int): Match {
    Match(rule.id, key, Observed(rule.metric, t), WindowBounds(now, rule.windowMinutes).0,
          WindowBounds(now, rule.windowMinutes).1)
  }

  /** The match says whose it is, what was observed, and the window: whole minutes up to the last one. */
  ghost predicate Tells(m: Match, rule: Rule, t: Totals, now: int) {
    && m.rule == rule.id && m.observed == Observed(rule.metric, t)
    && m.windowEnd % 60 == 0 && m.windowEnd <= now < m.windowEnd + 60
    && m.windowEnd - m.windowStart == 60 * rule.windowMinutes
  }

  /** One match for each group that breaches, and none for any other. */
  ghost predicate Exactly(matches: seq<Match>, rule: Rule, groups: map<Key, Totals>, now: int) {
    && (forall i :: 0 <= i < |matches| ==>
          var k := matches[i].key;
          k in groups && Fires(rule, groups[k]) && Tells(matches[i], rule, groups[k], now))
    && (forall i, j :: 0 <= i < j < |matches| ==> matches[i].key != matches[j].key)
    && (forall k :: k in groups && Fires(rule, groups[k]) ==> exists i :: 0 <= i < |matches| && matches[i].key == k)
  }

  /** `stats` and `fraud` are what the two queries return, None for a failed query. */
  method EvaluateRule(rule: Rule, campaigns: seq<string>, now: int, stats: Option<seq<Row>>,
                      fraud: Option<map<Key, Totals>>)
    returns (matches: Option<seq<Match>>)
    requires stats.Some? ==> Distinct(stats.value)
    ensures campaigns == [] ==> matches == Some([])
    ensures campaigns != [] ==>
              (matches.None? <==> stats.None? || (NeedsFraud(rule.metric) && fraud.None?))
    ensures campaigns != [] && matches.Some? ==>
              var looked := Looked(rule, RowMap(stats.value), if NeedsFraud(rule.metric) then fraud.value else map[]);
              Exactly(matches.value, rule, Groups(rule, looked), now)
  {
    if |campaigns| == 0 {
      return Some([]);
    }
    if stats.None? {
      return None;
    }
    var rows := stats.value;
    if NeedsFraud(rule.metric) {
      if fraud.None? {
        return None;
      }
      rows := MergeFraud(rows, fraud.value);
    }
    var found: seq<Match>;
    if rule.groupBy == "campaign" {
      found := MatchCampaigns(rule, rows, now);
    } else {
      found := MatchPlacements(rule, rows, now);
    }
    matches := Some(found);
  }

  /** Looking at one more group adds its match, or nothing. */
  function AddMatch(matches: seq<Match>, rule: Rule, k: Key, t: Totals, now: int): seq<Match> {
    if Fires(rule, t) then matches + [MatchFor(rule, k, t, now)] else matches
  }

  lemma ExactlyGrows(matches: seq<Match>, rule: Rule, groups: map<Key, Totals>, k: Key, t: Totals, now: int)
    requires Exactly(matches, rule, groups, now) && k !in groups
    ensures Exactly(AddMatch(matches, rule, k, t, now), rule, groups[k := t], now)
  {
    var next, grown := AddMatch(matches, rule, k, t, now), groups[k := t];
    forall g | g in grown && Fires(rule, grown[g]) ensures exists i :: 0 <= i < |next| && next[i].key == g {
      if g == k {
        assert next[|matches|].key == k;
      } else {
        var i :| 0 <= i < |matches| && matches[i].key == g;
        assert next[i].key == g;
      }
    }
  }

  method MatchPlacements(rule: Rule, rows: seq<Row>, now: int) returns (matches: seq<Match>)
    requires Distinct(rows)
    ensures Exactly(matches, rule, RowMap(rows), now)
  {
    matches := [];
    for i := 0 to |rows|
      invariant Exactly(matches, rule, RowMap(rows[..i]), now)
    {
      var seen := rows[..i + 1];
      LastKeyIsNew(seen);
      assert seen[..i] == rows[..i];
      ExactlyGrows(matches, rule, RowMap(rows[..i]), rows[i].key, rows[i].t, now);
      matches := AddMatch(matches, rule, rows[i].key, rows[i].t, now);
    }
    assert rows[..|rows|] == rows;
  }

  method MatchCampaigns(rule: Rule, rows: seq<Row>, now: int) returns (matches: seq<Match>)
    requires Distinct(rows)
    requires rule.groupBy == "campaign"
    ensures Exactly(matches, rule, Groups(rule, RowMap(rows)), now)
  {
    var totals := AggregateCampaigns(rows);
    matches := [];
    var todo := totals.Keys;
    ghost var seen: map<Key, Totals> := map[];
    while todo != {}
      invariant todo <= totals.Keys
      invariant Exactly(matches, rule, seen, now)
      invariant forall k :: k in seen <==> k.placement == "" && k.campaign in totals && k.campaign !in todo
      invariant forall k :: k in seen ==> seen[k] == totals[k.campaign]
    {
      var c :| c in todo;
      todo := todo - {c};
      ExactlyGrows(matches, rule, seen, Key(c, ""), totals[c], now);
      seen := seen[Key(c, "") := totals[c]];
      matches := AddMatch(matches, rule, Key(c, ""), totals[c], now);
    }
    CampaignGroups(rule, rows, totals);
    assert seen == Groups(rule, RowMap(rows));
  }

  lemma CampaignGroups(rule: Rule, rows: seq<Row>, totals: map<string, Totals>)
    requires Distinct(rows) && rule.groupBy == "campaign"
    requires totals.Keys == Campaigns(rows) && forall c :: c in totals ==> totals[c] == Wrap(Sum(rows, c))
    ensures var groups := Groups(rule, RowMap(rows));
            && (forall c :: c in totals ==> Key(c, "") in groups && groups[Key(c, "")] == totals[c])
            && (forall k :: k in groups ==> k.placement == "" && k.campaign in totals)
  {
    RowMapKeys(rows);
    forall c | c in totals ensures Key(c, "") in Groups(rule, RowMap(rows)) {
      var i :| 0 <= i < |rows| && rows[i].key.campaign == c;
      assert rows[i].key in RowMap(rows);
    }
    forall c ensures Sum(rows, c) == SumOver(KeysOf(RowMap(rows).Keys, c), RowMap(rows)) {
      SumIsSumOver(rows, c);
    }
  }

  /** What the two queries say of a placement: the stats row, and for a metric about rejects the rejects of
      the fraud row instead of its own, or the fraud row if there is no other. */
  ghost predicate SaidOf(metric: string, rows: map<Key, Totals>, fraud: map<Key, Totals>, k: Key, t: Totals) {
    var rejects := metric in {"fraud_reject_count", "fraud_reject_rate", "ivt_rate", "silent_reject_rate"}
                   && k in fraud && k.placement != "";
    || (!rejects && k in rows && t == rows[k])
    || (rejects && k !in rows && t == fraud[k])
    || (rejects && k in rows
        && (t.spend, t.profit, t.clicks, t.conversions) ==
           (rows[k].spend, rows[k].profit, rows[k].clicks, rows[k].conversions)
        && (t.fraud, t.silent) == (fraud[k].fraud, fraud[k].silent))
  }

  lemma LookedIff(rule: Rule, rows: map<Key, Totals>, fraud: map<Key, Totals>, k: Key, t: Totals)
    ensures SaidOf(rule.metric, rows, fraud, k, t)
            <==> k in Looked(rule, rows, fraud) && Looked(rule, rows, fraud)[k] == t
  {
    MergedColumns(rows, fraud, k);
  }

  /** A rule on placements matches a placement exactly if what the queries say of it breaches. */
  lemma PlacementMatchedIff(rule: Rule, rows: map<Key, Totals>, fraud: map<Key, Totals>, now: int,
                            matches: seq<Match>, k: Key)
    requires rule.groupBy != "campaign" && Exactly(matches, rule, Groups(rule, Looked(rule, rows, fraud)), now)
    ensures (exists i :: 0 <= i < |matches| && matches[i].key == k)
            <==> exists t :: SaidOf(rule.metric, rows, fraud, k, t)
                   && Breached(rule.operator, Observed(rule.metric, t), rule.threshold)
  {
    var looked := Looked(rule, rows, fraud);
    forall t ensures SaidOf(rule.metric, rows, fraud, k, t) <==> k in looked && looked[k] == t {
      LookedIff(rule, rows, fraud, k, t);
    }
  }

  /** A rule on campaigns matches a campaign exactly if the queries say something of one of its placements,
      and all they say of these, added up as the machine does, breaches. */
  lemma CampaignMatchedIff(rule: Rule, rows: map<Key, Totals>, fraud: map<Key, Totals>, now: int,
                           matches: seq<Match>, campaign: string, said: map<Key, Totals>)
    requires rule.groupBy == "campaign" && Exactly(matches, rule, Groups(rule, Looked(rule, rows, fraud)), now)
    requires forall k, t :: SaidOf(rule.metric, rows, fraud, k, t) <==> k in said && said[k] == t
    ensures (exists i :: 0 <= i < |matches| && matches[i].key == Key(campaign, ""))
            <==> (exists k :: k in said && k.campaign == campaign)
                 && Breached(rule.operator, Observed(rule.metric, Wrap(SumOver(KeysOf(said.Keys, campaign), said))),
                             rule.threshold)
  {
    var looked := Looked(rule, rows, fraud);
    forall k | k in said ensures k in looked && looked[k] == said[k] {
      assert SaidOf(rule.metric, rows, fraud, k, said[k]);
      LookedIff(rule, rows, fraud, k, said[k]);
    }
    forall k | k in looked ensures k in said && said[k] == looked[k] {
      LookedIff(rule, rows, fraud, k, looked[k]);
    }
    assert said.Keys == looked.Keys && said == looked;
    CampaignGroupIff(rule, looked, campaign);
  }

  lemma CampaignGroupIff(rule: Rule, looked: map<Key, Totals>, campaign: string)
    requires rule.groupBy == "campaign"
    ensures Key(campaign, "") in Groups(rule, looked) <==> exists k :: k in looked && k.campaign == campaign
    ensures Key(campaign, "") in Groups(rule, looked) ==>
              Groups(rule, looked)[Key(campaign, "")] == Wrap(SumOver(KeysOf(looked.Keys, campaign), looked))
  {
  }

  /** Regrouping a rate rule from placements to campaigns cannot lose a campaign all of whose
      placements fired with something to divide by, as long as its totals fit the machine's fields. */
  lemma CampaignRuleFires(rule: Rule, rows: seq<Row>, campaign: string)
    requires Distinct(rows) && IsRate(rule.metric) && campaign in Campaigns(rows)
    requires InRange(Sum(rows, campaign))
    requires forall k :: k in RowMap(rows) && k.campaign == campaign ==>
               Whole(rule.metric, RowMap(rows)[k]) > 0 && Fires(rule, RowMap(rows)[k])
    ensures var grouped := rule.(groupBy := "campaign");
            var groups := Groups(grouped, RowMap(rows));
            Key(campaign, "") in groups && Fires(grouped, groups[Key(campaign, "")])
  {
    forall i | 0 <= i < |rows| && rows[i].key.campaign == campaign
      ensures Whole(rule.metric, rows[i].t) > 0
      ensures Breached(rule.operator, Observed(rule.metric, rows[i].t), rule.threshold)
    {
      RowMapAt(rows, i);
    }
    CampaignBreaches(rows, campaign, rule.metric, rule.operator, rule.threshold);
    WrapInRange(Sum(rows, campaign));
    CampaignGroups(rule.(groupBy := "campaign"), rows, map c | c in Campaigns(rows) :: Wrap(Sum(rows, c)));
  }
}
