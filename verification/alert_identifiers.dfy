/** Alert identifiers over whole runs: when they are distinct, for one piece of equipment and for the fleet. */
module AlertIdentifiers {
  import SafeEval
  import opened Common
  import opened Alerts
  import opened AlertRules
  import opened AlertEngine

  // -------------------------------------------------------- one equipment

  ghost predicate DistinctAlertIds(s: seq<Alert>) {
    forall i, j :: 0 <= i < j < |s| ==> s[i].alertId != s[j].alertId
  }

  /** With every cooldown at least a second, alerts of one equipment have different identifiers. */
  lemma IdentifiersDistinct(engine: AlertRuleEngine, e: string)
    requires engine.Valid()
    requires forall r <- engine.rules :: r.cooldown >= 1.0
    ensures DistinctAlertIds(ForEquipment(engine.trace, e))
  {
    ProjectionApart(engine.trace, e, engine.rules, engine.clock);
    var own := ForEquipment(engine.trace, e);
    forall i, j | 0 <= i < j < |own| ensures own[i].alertId != own[j].alertId {
      assert Apart(own[i], own[j], engine.rules);
      DifferentIdentifiers(own[i], own[j], engine.rules);
    }
  }

  lemma DifferentIdentifiers(a: Alert, b: Alert, rules: seq<AlertRule>)
    requires a.equipment == b.equipment && Apart(a, b, rules) && CooldownOf(rules, b.ruleId).Some?
    requires forall r <- rules :: r.cooldown >= 1.0
    ensures a.alertId != b.alertId
  {
    CooldownBound(rules, b.ruleId);
    assert a.ruleId == b.ruleId ==> b.createdAt - a.createdAt >= 1.0;
    if a.alertId == b.alertId {
      AlertIdInjective(a.ruleId, b.ruleId, a.equipment, a.createdAt, b.createdAt);
    }
  }

  lemma {:induction false} CooldownBound(rules: seq<AlertRule>, id: string)
    requires forall r <- rules :: r.cooldown >= 1.0
    ensures CooldownOf(rules, id).Some? ==> CooldownOf(rules, id).value >= 1.0
  {
    if rules != [] { CooldownBound(rules[1..], id); }
  }

  lemma {:induction false} ProjectionApart(s: seq<Alert>, e: string, rules: seq<AlertRule>, clock: Instant)
    requires TraceValid(s, rules, clock)
    ensures var own := ForEquipment(s, e);
            (forall a <- own :: a in s && a.equipment == e && Stamped(a, rules, clock)) &&
            forall i, j {:trigger Apart(own[i], own[j], rules)} ::
              0 <= i < j < |own| ==> Apart(own[i], own[j], rules)
  {
    if s != [] {
      var before, last := s[..|s| - 1], s[|s| - 1];
      forall i, j | 0 <= i < j < |before| ensures Apart(before[i], before[j], rules) {
        assert Apart(s[i], s[j], rules);
      }
      ProjectionApart(before, e, rules, clock);
      var own := ForEquipment(s, e);
      forall i, j | 0 <= i < j < |own| ensures Apart(own[i], own[j], rules) {
        if own != ForEquipment(before, e) && j == |own| - 1 {
          assert own[i] == ForEquipment(before, e)[i] && own[i] in before;
          var k :| 0 <= k < |before| && before[k] == own[i];
          assert Apart(s[k], s[|s| - 1], rules);
        } else {
          assert Apart(ForEquipment(before, e)[i], ForEquipment(before, e)[j], rules);
        }
      }
    }
  }

  // ------------------------------------------------------ the whole fleet

  /** No rule's identifier continues another's after an underscore: a property of the configuration. */
  ghost predicate Separate(rules: seq<AlertRule>) {
    forall r, s {:trigger Extends(r.ruleId, s.ruleId)} | r in rules && s in rules && r != s ::
      !Extends(r.ruleId, s.ruleId)
  }

  lemma {:induction false} KnownRule(rules: seq<AlertRule>, id: string) returns (r: AlertRule)
    requires CooldownOf(rules, id).Some?
    ensures r in rules && r.ruleId == id
  {
    r := rules[0];
    if r.ruleId != id {
      r := KnownRule(rules[1..], id);
    }
  }

  /** Two alerts, `a` first, of rules that do not extend each other. */
  lemma SeparateIdentifiers(a: Alert, b: Alert, rules: seq<AlertRule>)
    requires Apart(a, b, rules) && Separate(rules)
    requires CooldownOf(rules, a.ruleId).Some? && CooldownOf(rules, b.ruleId).Some?
    requires forall r <- rules :: r.cooldown >= 1.0
    ensures a.alertId != b.alertId
  {
    if a.ruleId != b.ruleId {
      var r := KnownRule(rules, a.ruleId);
      var s := KnownRule(rules, b.ruleId);
      assert !Extends(r.ruleId, s.ruleId) && !Extends(s.ruleId, r.ruleId);
      AlertIdsCollideIff(a.ruleId, b.ruleId);
    } else {
      SameRuleIdentifiers(a, b, rules);
    }
  }

  lemma SameRuleIdentifiers(a: Alert, b: Alert, rules: seq<AlertRule>)
    requires Apart(a, b, rules) && a.ruleId == b.ruleId && CooldownOf(rules, b.ruleId).Some?
    requires forall r <- rules :: r.cooldown >= 1.0
    ensures a.alertId != b.alertId
  {
    AlertIdsEqualIff(a.ruleId, a.equipment, a.createdAt, b.ruleId, b.equipment, b.createdAt);
    CooldownBound(rules, b.ruleId);
    var prefix := a.ruleId + "_";
    assert a.ruleId + "_" + a.equipment == prefix + a.equipment && b.ruleId + "_" + b.equipment == prefix + b.equipment;
    assert (prefix + a.equipment)[|prefix|..] == a.equipment && (prefix + b.equipment)[|prefix|..] == b.equipment;
    assert a.equipment == b.equipment ==> b.createdAt - a.createdAt >= 1.0;
  }

  lemma {:induction false} ProjectionDistinct(s: seq<Alert>, e: string)
    requires DistinctAlertIds(s)
    ensures DistinctAlertIds(ForEquipment(s, e))
  {
    if s != [] {
      var before := s[..|s| - 1];
      ProjectionDistinct(before, e);
      ForEquipmentMembers(before, e);
      forall a <- before ensures a.alertId != s[|s| - 1].alertId {
        var k :| 0 <= k < |before| && before[k] == a;
        assert s[k] == a;
      }
    }
  }

  lemma DistinctMembers(s: seq<Alert>, a: Alert, b: Alert)
    requires DistinctAlertIds(s) && a in s && b in s && a != b
    ensures a.alertId != b.alertId
  {
    var i :| 0 <= i < |s| && s[i] == a;
    var j :| 0 <= j < |s| && s[j] == b;
  }

  lemma DistinctConcat(s: seq<Alert>, t: seq<Alert>)
    requires DistinctAlertIds(s) && DistinctAlertIds(t)
    requires forall a, b | a in s && b in t :: a.alertId != b.alertId
    ensures DistinctAlertIds(s + t)
  {
  }

  /** Listing equipment by equipment keeps identifiers distinct. */
  lemma {:induction false} ListingDistinct(s: seq<Alert>, order: seq<string>)
    requires DistinctAlertIds(s) && Distinct(order)
    ensures DistinctAlertIds(Listing(s, order))
  {
    if order != [] {
      var shorter, last := order[..|order| - 1], order[|order| - 1];
      ListingDistinct(s, shorter);
      ProjectionDistinct(s, last);
      ListingMembers(s, shorter);
      ForEquipmentMembers(s, last);
      assert last !in shorter;
      forall a, b | a in Listing(s, shorter) && b in ForEquipment(s, last) ensures a.alertId != b.alertId {
        DistinctMembers(s, a, b);
      }
      DistinctConcat(Listing(s, shorter), ForEquipment(s, last));
    }
  }

  /**
   With cooldowns of at least a second and no rule identifier extending another, all
   alerts of a run have different identifiers, and so has the listing of the whole fleet.
  */
  lemma FleetIdentifiersDistinct(engine: AlertRuleEngine)
    requires engine.Valid() && Separate(engine.rules)
    requires forall r <- engine.rules :: r.cooldown >= 1.0
    ensures DistinctAlertIds(engine.trace)
    ensures DistinctAlertIds(Listing(engine.trace, FirstSeen(engine.trace)))
  {
    TraceDistinct(engine.trace, engine.rules, engine.clock);
    FirstSeenOnce(engine.trace);
    ListingDistinct(engine.trace, FirstSeen(engine.trace));
  }

  lemma TraceDistinct(trace: seq<Alert>, rules: seq<AlertRule>, clock: Instant)
    requires TraceValid(trace, rules, clock) && Separate(rules) && forall r <- rules :: r.cooldown >= 1.0
    ensures DistinctAlertIds(trace)
  {
    forall i, j | 0 <= i < j < |trace| ensures trace[i].alertId != trace[j].alertId {
      assert Apart(trace[i], trace[j], rules) && trace[i] in trace && trace[j] in trace;
      SeparateIdentifiers(trace[i], trace[j], rules);
    }
  }

  // ------------------------------------------------ both conditions are needed

  /** Enabled, with a condition that is always true and nothing to fill in. */
  ghost predicate Always(rule: AlertRule) {
    rule.enabled && rule.template == [] && rule.condition == Some(SafeEval.Constant(SafeEval.BoolV(true)))
  }

  lemma AlwaysRecords(rule: AlertRule, config: Suppression, e: string, now: Instant)
    requires Always(rule) && !config.enabled && !rule.Cooling(Some(e), now)
    ensures var data := Prediction(Some(e), map[]);
            rule.WouldFire(data, now) && Recording([rule], config, data, now) == [rule]
  {
    var data := Prediction(Some(e), map[]);
    assert Render(rule.template, data.Variables()) == Some([]);
    assert Records(rule, config, data, now);
    var rules := [rule];
    var plan := Plan(rules, config, data, now);
    assert plan[0] && Chosen(rules, plan, 0) == [];
    assert Chosen(rules, plan, 1) == [] + [rule];
  }

  method NewAlways(id: string, cooldown: real) returns (rule: AlertRule)
    ensures fresh(rule) && rule.Valid() && rule.firings == map[] && Always(rule)
    ensures rule.ruleId == id && rule.cooldown == cooldown
  {
    rule := new AlertRule(id, Some(SafeEval.Constant(SafeEval.BoolV(true))), Critical, [], true, cooldown);
  }

  /** One evaluation of an engine with a single such rule records one alert. */
  method FireOnce(engine: AlertRuleEngine, rule: AlertRule, e: string, now: Instant) returns (a: Alert)
    requires engine.Valid() && engine.rules == [rule] && engine.clock <= now && !engine.suppression.enabled
    requires Always(rule) && !rule.Cooling(Some(e), now)
    modifies engine, engine.rules
    ensures engine.Valid() && engine.clock == now && engine.trace == old(engine.trace) + [a]
    ensures a.ruleId == rule.ruleId && a.equipment == e && a.createdAt == now
    ensures fresh(a) && a.status == Triggered
    ensures rule.Times(Some(e)) == old(rule.Times(Some(e))) + [now]
  {
    var data := Prediction(Some(e), map[]);
    AlwaysRecords(rule, engine.suppression, e, now);
    ghost var next := NextFirings([rule], data, now);
    var triggered := engine.Evaluate(data, now);
    assert Built(triggered[0], rule, data, now);
    a := triggered[0];
    assert triggered == [a] && a in triggered;
    assert engine.rules[0].firings == next[0];
  }

  method SingleRuleEngine(id: string, cooldown: real) returns (engine: AlertRuleEngine, rule: AlertRule)
    ensures fresh(engine) && fresh(rule) && engine.Valid() && engine.rules == [rule] && !engine.suppression.enabled
    ensures engine.trace == [] && engine.clock == 0.0
    ensures rule.firings == map[] && Always(rule) && rule.ruleId == id && rule.cooldown == cooldown
  {
    rule := NewAlways(id, cooldown);
    engine := new AlertRuleEngine([rule], Suppression(false, [], false, None));
  }

  method FireAtZero(id: string, e: string, cooldown: real)
    returns (engine: AlertRuleEngine, rule: AlertRule, a: Alert)
    ensures fresh(engine) && fresh(rule) && fresh(a)
    ensures engine.Valid() && engine.rules == [rule] && !engine.suppression.enabled && engine.clock == 0.0
    ensures Always(rule) && rule.ruleId == id && rule.cooldown == cooldown && rule.Times(Some(e)) == [0.0]
    ensures engine.trace == [a] && a.status == Triggered && a.ruleId == id && a.equipment == e && a.createdAt == 0.0
  {
    engine, rule := SingleRuleEngine(id, cooldown);
    a := FireOnce(engine, rule, e, 0.0);
  }

  /** Two firings within the first second. */
  method FireTwice(id: string, e: string, cooldown: real)
    returns (engine: AlertRuleEngine, rule: AlertRule, a: Alert, b: Alert)
    requires cooldown < 1.0
    ensures fresh(engine) && fresh(rule) && engine.Valid() && engine.rules == [rule] && !engine.suppression.enabled
    ensures Always(rule) && rule.ruleId == id && rule.cooldown == cooldown
    ensures fresh(a) && fresh(b) && engine.trace == [a, b] && a.status == b.status == Triggered
    ensures a.equipment == b.equipment == e && a.alertId == b.alertId
    ensures engine.clock < 1.0 && !rule.Cooling(Some(e), 2.0)
  {
    engine, rule, a := FireAtZero(id, e, cooldown);
    var later := if cooldown < 0.0 then 0.0 else cooldown;
    b := FireOnce(engine, rule, e, later);
    assert a.createdAt.Floor == b.createdAt.Floor == 0;
  }

  /** For every cooldown below a second there is a run in which one rule records the same identifier twice. */
  method ShortCooldownRepeats(id: string, e: string, cooldown: real) returns (engine: AlertRuleEngine)
    requires cooldown < 1.0
    ensures fresh(engine) && engine.Valid() && |engine.rules| == 1 && engine.rules[0].cooldown == cooldown
    ensures |engine.trace| == 2 && engine.trace[0].equipment == engine.trace[1].equipment == e
    ensures engine.trace[0].alertId == engine.trace[1].alertId
  {
    var rule, a, b;
    engine, rule, a, b := FireTwice(id, e, cooldown);
  }

  lemma BothRecord(r: AlertRule, s: AlertRule, config: Suppression, e: string, now: Instant)
    requires Always(r) && Always(s) && !config.enabled && !r.Cooling(Some(e), now) && !s.Cooling(Some(e), now)
    ensures var data := Prediction(Some(e), map[]);
            r.WouldFire(data, now) && s.WouldFire(data, now) && Recording([r, s], config, data, now) == [r, s]
  {
    var data := Prediction(Some(e), map[]);
    AlwaysRecords(r, config, e, now);
    AlwaysRecords(s, config, e, now);
    assert Render([], data.Variables()) == Some([]);
    assert Records(r, config, data, now) && Records(s, config, data, now);
    var rules := [r, s];
    var plan := Plan(rules, config, data, now);
    assert plan[0] && plan[1] && Chosen(rules, plan, 0) == [];
    assert Chosen(rules, plan, 1) == [r];
    assert Chosen(rules, plan, 2) == [r] + [s];
  }

  /** One evaluation of an engine with two such rules records an alert of each. */
  method FireBoth(engine: AlertRuleEngine, r: AlertRule, s: AlertRule, e: string, now: Instant)
    returns (a: Alert, b: Alert)
    requires engine.Valid() && engine.rules == [r, s] && engine.clock <= now && !engine.suppression.enabled
    requires Always(r) && Always(s) && !r.Cooling(Some(e), now) && !s.Cooling(Some(e), now)
    modifies engine, engine.rules
    ensures engine.Valid() && engine.clock == now && engine.trace == old(engine.trace) + [a, b]
    ensures a.ruleId == r.ruleId && b.ruleId == s.ruleId && a.equipment == b.equipment == e
    ensures a.createdAt == b.createdAt == now
    ensures fresh(a) && fresh(b) && a.status == b.status == Triggered
    ensures r.firings == old(r.firings)[Some(e) := old(r.Times(Some(e))) + [now]]
    ensures s.firings == old(s.firings)[Some(e) := old(s.Times(Some(e))) + [now]]
  {
    var data := Prediction(Some(e), map[]);
    BothRecord(r, s, engine.suppression, e, now);
    ghost var next := NextFirings([r, s], data, now);
    var triggered := engine.Evaluate(data, now);
    assert Built(triggered[0], r, data, now) && Built(triggered[1], s, data, now);
    a, b := triggered[0], triggered[1];
    assert triggered == [a, b] && a in triggered && b in triggered;
    assert engine.rules[0].firings == next[0] && engine.rules[1].firings == next[1];
  }

  method TwoRuleEngine(long: string, short: string, cooldown: real)
    returns (engine: AlertRuleEngine, r: AlertRule, s: AlertRule)
    requires long != short
    ensures fresh(engine) && fresh(r) && fresh(s)
    ensures engine.Valid() && engine.rules == [r, s] && !engine.suppression.enabled
    ensures engine.trace == [] && engine.clock == 0.0
    ensures r.firings == map[] && Always(r) && r.ruleId == long && r.cooldown == cooldown
    ensures s.firings == map[] && Always(s) && s.ruleId == short && s.cooldown == cooldown
  {
    r := NewAlways(long, cooldown);
    s := NewAlways(short, cooldown);
    engine := new AlertRuleEngine([r, s], Suppression(false, [], false, None));
  }

  /** The equipment whose name takes up what the longer rule identifier has in excess. */
  function Rest(long: string, short: string, e: string): string
    requires Extends(long, short)
  {
    long[|short| + 1..] + "_" + e
  }

  /** Alerts of two rules for each of two pieces of equipment, all within the first second. */
  method FireFour(long: string, short: string, e: string, cooldown: real)
    returns (engine: AlertRuleEngine, r: AlertRule, s: AlertRule, first: seq<Alert>, second: seq<Alert>)
    requires Extends(long, short)
    ensures fresh(engine) && fresh(r) && fresh(s)
    ensures engine.Valid() && engine.rules == [r, s] && !engine.suppression.enabled && engine.clock == 0.0
    ensures Always(r) && r.ruleId == long && r.cooldown == cooldown
    ensures Always(s) && s.ruleId == short && s.cooldown == cooldown
    ensures r.firings.Keys == s.firings.Keys == {Some(e), Some(Rest(long, short, e))}
    ensures engine.trace == first + second && |first| == |second| == 2
    ensures forall a <- first :: fresh(a) && a.status == Triggered && a.equipment == e
    ensures forall a <- second :: fresh(a) && a.status == Triggered && a.equipment == Rest(long, short, e)
    ensures first[0].alertId == second[1].alertId
  {
    var f := Rest(long, short, e);
    ExtensionCollides(long, short, e, 0.0);
    engine, r, s := TwoRuleEngine(long, short, cooldown);
    var a, b := FireBoth(engine, r, s, e, 0.0);
    var c, d := FireBoth(engine, r, s, f, 0.0);
    first, second := [a, b], [c, d];
  }

  /**
   For every two rule identifiers of which one extends the other there is a run, whatever
   the cooldown, in which alerts of two pieces of equipment get the same identifier.
  */
  method ExtensionRepeats(long: string, short: string, e: string, cooldown: real) returns (engine: AlertRuleEngine)
    requires Extends(long, short)
    ensures fresh(engine) && engine.Valid() && |engine.rules| == 2 && |engine.trace| == 4
    ensures engine.rules[0].ruleId == long && engine.rules[1].ruleId == short
    ensures engine.rules[0].cooldown == engine.rules[1].cooldown == cooldown
    ensures engine.trace[0].alertId == engine.trace[3].alertId && engine.trace[0].equipment != engine.trace[3].equipment
  {
    var r, s, first, second;
    engine, r, s, first, second := FireFour(long, short, e, cooldown);
    assert first[0] in first && second[1] in second;
  }
}
