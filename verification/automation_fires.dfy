/** Deduplication of rule actions: the key of a fire row, and any number of workers racing to insert
    fire rows before they act. */
module AutomationFires {
  import opened Options
  import opened AutomationActions

  /** What the key of an action's fire row is made of; of the action itself it is the type alone. Ids
      and times are in their printed form: a UUID prints as 36 characters, a window end (whole minutes,
      years 0 to 9999) as 20. */
  datatype Fire = Fire(rule: string, campaign: string, placement: string, windowEnd: string, action: string)

  predicate Printed(f: Fire) {
    |f.rule| == 36 && |f.campaign| == 36 && |f.windowEnd| == 20
  }

  /** The text that is hashed into the fire row's key. */
  function Preimage(f: Fire): string {
    f.rule + "|" + f.campaign + "|" + f.placement + "|" + f.windowEnd + "|" + f.action
  }

  /** The part after the two fixed-width ids. */
  function Tail(f: Fire): string {
    f.placement + "|" + f.windowEnd + "|" + f.action
  }

  lemma SplitAt(a: string, x: string, b: string, y: string)
    requires |a| == |b| && a + x == b + y
    ensures a == b && x == y
  {
    assert a == (a + x)[..|a|] && x == (a + x)[|a|..];
    assert b == (b + y)[..|b|] && y == (b + y)[|b|..];
  }

  lemma PreimageHead(a: Fire, b: Fire)
    requires Printed(a) && Printed(b) && Preimage(a) == Preimage(b)
    ensures a.rule == b.rule && a.campaign == b.campaign && Tail(a) == Tail(b)
  {
    assert Preimage(a) == (a.rule + "|" + a.campaign + "|") + Tail(a);
    assert Preimage(b) == (b.rule + "|" + b.campaign + "|") + Tail(b);
    SplitAt(a.rule + "|" + a.campaign + "|", Tail(a), b.rule + "|" + b.campaign + "|", Tail(b));
    SplitAt(a.rule + "|" + a.campaign, "|", b.rule + "|" + b.campaign, "|");
    SplitAt(a.rule + "|", a.campaign, b.rule + "|", b.campaign);
    SplitAt(a.rule, "|", b.rule, "|");
  }

  lemma SeparatorBeforeAction(a: Fire)
    ensures |Tail(a)| > |a.action| && Tail(a)[|Tail(a)| - |a.action| - 1] == '|'
    ensures Tail(a)[|Tail(a)| - |a.action|..] == a.action
  {
    assert Tail(a) == (a.placement + "|" + a.windowEnd) + ("|" + a.action);
  }

  lemma LongerHasSeparator(t: string, x: string, y: string)
    requires |x| < |t| && |y| < |t| && t[|t| - |x| - 1] == '|' && t[|t| - |y|..] == y
    ensures |x| < |y| ==> '|' in y
  {
    assert |x| < |y| ==> t[|t| - |y|..][|y| - |x| - 1] == '|';
  }

  /** With a separator-free action type on the right and fixed widths elsewhere, the text determines
      the fire, whatever the placement id contains. */
  lemma PreimageUnambiguous(a: Fire, b: Fire)
    requires Printed(a) && Printed(b)
    requires '|' !in a.action && '|' !in b.action
    requires Preimage(a) == Preimage(b)
    ensures a == b
  {
    PreimageHead(a, b);
    var t := Tail(a);
    SeparatorBeforeAction(a);
    SeparatorBeforeAction(b);
    LongerHasSeparator(t, a.action, b.action);
    LongerHasSeparator(t, b.action, a.action);
    assert |a.action| == |b.action| && a.action == b.action;
    var rest := t[..|t| - |a.action| - 1];
    assert rest == a.placement + "|" + a.windowEnd == b.placement + "|" + b.windowEnd;
    assert a.windowEnd == rest[|rest| - 20..] && b.windowEnd == rest[|rest| - 20..];
    assert a.placement == rest[..|rest| - 21] && b.placement == rest[..|rest| - 21];
  }

  /** A separator in the action type would break it: these two fires print alike. */
  lemma SeparatorInActionCollides(rule: string, campaign: string, t1: string, t2: string)
    requires |rule| == |campaign| == 36 && |t1| == |t2| == 20
    ensures var a := Fire(rule, campaign, "zone|" + t1, t2, "notify");
            var b := Fire(rule, campaign, "zone", t1, t2 + "|notify");
            Printed(a) && Printed(b) && a != b && Preimage(a) == Preimage(b)
  {
    assert |"zone|" + t1| != |"zone"|;
    assert ("zone|" + t1) + "|" + t2 + "|" + "notify" == "zone" + "|" + t1 + "|" + (t2 + "|notify");
    var head := rule + "|" + campaign + "|";
    var a := Fire(rule, campaign, "zone|" + t1, t2, "notify");
    var b := Fire(rule, campaign, "zone", t1, t2 + "|notify");
    assert Preimage(a) == head + Tail(a) && Preimage(b) == head + Tail(b);
  }

  /** A fire the service can produce: printed ids, one of the accepted action types. */
  predicate Supported(f: Fire) {
    Printed(f) && f.action in ACTION_TYPES
  }

  lemma SupportedUnambiguous(a: Fire, b: Fire)
    requires Supported(a) && Supported(b) && Preimage(a) == Preimage(b)
    ensures a == b
  {
    forall t | t in ACTION_TYPES ensures '|' !in t {
      assert t in {"notify", "pause_campaign", "blacklist_placement", "platform_pause"};
    }
    PreimageUnambiguous(a, b);
  }

  // ------------------------------------------------------------------ racing workers

  /** A fire and the action that is to be run for it. */
  datatype Claim = Claim(fire: Fire, deed: Deed)

  /** `rows` is the fire table: keys (rule id, action hash), inserted if absent. `holding` maps a
      worker to the claim whose row it has just inserted and whose action it is about to run; `ran`
      counts actions begun, successful or not. */
  datatype State = State(rows: set<(string, string)>, holding: map<nat, Claim>, ran: multiset<Claim>,
                         inserted: set<Claim>)

  const INITIAL := State({}, map[], multiset{}, {})

  datatype Action =
    | Insert(worker: nat, claim: Claim)    // applies the insert; a taken key leaves nothing to do
    | Act(worker: nat)                     // runs the action, whatever comes of it
    | Die(worker: nat)                     // the process ends between insert and action

  type RowKey = (string, string)

  /** The primary key of a fire row: the rule's id and the digest of the preimage. */
  function RowKeyOf(hash: string -> string): Fire -> RowKey {
    (f: Fire) => (f.rule, hash(Preimage(f)))
  }

  predicate Enabled(s: State, a: Action) {
    match a
    case Insert(w, _) => w !in s.holding
    case Act(w) => w in s.holding
    case Die(_) => true
  }

  function Apply(s: State, a: Action, key: Fire -> RowKey): State
    requires Enabled(s, a)
  {
    match a
    case Insert(w, c) =>
      if key(c.fire) in s.rows then s
      else s.(rows := s.rows + {key(c.fire)}, holding := s.holding[w := c], inserted := s.inserted + {c})
    case Act(w) => s.(holding := s.holding - {w}, ran := s.ran + multiset{s.holding[w]})
    case Die(w) => s.(holding := s.holding - {w})
  }

  function After(key: Fire -> RowKey, run: seq<Action>): Option<State> {
    if run == [] then Some(INITIAL)
    else
      var front := After(key, run[..|run| - 1]);
      if front.Some? && Enabled(front.value, run[|run| - 1])
      then Some(Apply(front.value, run[|run| - 1], key)) else None
  }

  ghost predicate Injective(hash: string -> string) {
    forall x, y :: hash(x) == hash(y) ==> x == y
  }

  /** The rows are the keys of the claims inserted, each of one claim only. */
  ghost predicate Keyed(rows: set<RowKey>, inserted: set<Claim>, key: Fire -> RowKey) {
    && (forall c :: c in inserted ==> key(c.fire) in rows)
    && (forall c, d :: c in inserted && d in inserted && c != d ==> key(c.fire) != key(d.fire))
    && (forall k :: k in rows ==> exists c :: c in inserted && key(c.fire) == k)
  }

  /** Every claim a worker holds or has acted on was inserted by that worker and by nobody else. */
  ghost predicate Held(holding: map<nat, Claim>, ran: multiset<Claim>, inserted: set<Claim>) {
    && (forall w :: w in holding ==> holding[w] in inserted && ran[holding[w]] == 0)
    && (forall v, w :: v in holding && w in holding && v != w ==> holding[v] != holding[w])
    && (forall c :: ran[c] <= 1)
    && (forall c :: c in ran ==> c in inserted)
  }

  ghost predicate Claimed(s: State, key: Fire -> RowKey) {
    Keyed(s.rows, s.inserted, key) && Held(s.holding, s.ran, s.inserted)
  }

  lemma KeyedOneMore(rows: set<RowKey>, inserted: set<Claim>, key: Fire -> RowKey, c: Claim)
    requires Keyed(rows, inserted, key) && key(c.fire) !in rows
    ensures Keyed(rows + {key(c.fire)}, inserted + {c}, key) && c !in inserted
  {
    forall k | k in rows + {key(c.fire)} ensures exists d :: d in inserted + {c} && key(d.fire) == k {
      if k == key(c.fire) {
        assert c in inserted + {c};
      } else {
        var d :| d in inserted && key(d.fire) == k;
        assert d in inserted + {c};
      }
    }
  }

  lemma HeldOneMore(holding: map<nat, Claim>, ran: multiset<Claim>, inserted: set<Claim>, w: nat, c: Claim)
    requires Held(holding, ran, inserted) && w !in holding && c !in inserted
    ensures Held(holding[w := c], ran, inserted + {c})
  {
  }

  lemma HeldOneLess(holding: map<nat, Claim>, ran: multiset<Claim>, inserted: set<Claim>, w: nat)
    requires Held(holding, ran, inserted)
    ensures Held(holding - {w}, ran, inserted)
    ensures w in holding ==> Held(holding - {w}, ran + multiset{holding[w]}, inserted)
  {
  }

  lemma ClaimedStep(key: Fire -> RowKey, s: State, a: Action)
    requires Enabled(s, a) && Claimed(s, key)
    ensures Claimed(Apply(s, a, key), key)
  {
    match a
    case Insert(w, c) =>
      if key(c.fire) !in s.rows {
        KeyedOneMore(s.rows, s.inserted, key, c);
        HeldOneMore(s.holding, s.ran, s.inserted, w, c);
      }
    case Act(w) => HeldOneLess(s.holding, s.ran, s.inserted, w);
    case Die(w) => HeldOneLess(s.holding, s.ran, s.inserted, w);
  }

  lemma {:induction false} RunClaimed(key: Fire -> RowKey, run: seq<Action>)
    requires After(key, run).Some?
    ensures Claimed(After(key, run).value, key)
  {
    if run != [] {
      RunClaimed(key, run[..|run| - 1]);
      ClaimedStep(key, After(key, run[..|run| - 1]).value, run[|run| - 1]);
    }
  }

  /** However many workers race, over however many ticks, at most one action runs per fire, and that
      once. Another action for the same fire, to a second webhook say, never runs. */
  lemma ActsAtMostOnce(hash: string -> string, run: seq<Action>, c: Claim, d: Claim)
    requires After(RowKeyOf(hash), run).Some? && c.fire == d.fire
    ensures var ran := After(RowKeyOf(hash), run).value.ran;
            ran[c] <= 1 && (c != d ==> ran[c] + ran[d] <= 1)
  {
    RunClaimed(RowKeyOf(hash), run);
  }

  /** What suppresses an action: with a collision-free hash and action types the service accepts, an
      insert finds its key taken exactly when an action of the same type, whatever its webhook or
      network, was inserted for the same rule, target and window. */
  lemma SuppressedIffSameType(hash: string -> string, run: seq<Action>, c: Claim)
    requires Injective(hash) && Supported(c.fire)
    requires After(RowKeyOf(hash), run).Some?
    requires forall d :: d in After(RowKeyOf(hash), run).value.inserted ==> Supported(d.fire)
    ensures RowKeyOf(hash)(c.fire) in After(RowKeyOf(hash), run).value.rows
            <==> exists d :: d in After(RowKeyOf(hash), run).value.inserted && d.fire == c.fire
  {
    var key := RowKeyOf(hash);
    RunClaimed(key, run);
    var s := After(key, run).value;
    if key(c.fire) in s.rows {
      var d :| d in s.inserted && key(d.fire) == key(c.fire);
      SupportedUnambiguous(c.fire, d.fire);
    }
  }
}
