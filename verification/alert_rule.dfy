/** Alert rules: a condition, a message template and a cooldown per equipment. */
module AlertRules {
  import opened Common
  import opened SafeEval
  import opened Alerts
  import opened Spacing

  /** One prediction: `equipment` is its "equipment_id" entry, if there is one. */
  datatype Prediction = Prediction(equipment: Option<string>, readings: Env) {
    /** The dictionary conditions and templates are looked up in. */
    function Variables(): (env: Env)
      ensures equipment.Some? ==> "equipment_id" in env && env["equipment_id"] == StrV(equipment.value)
      ensures equipment.None? ==> "equipment_id" !in env
      ensures forall n :: n != "equipment_id" ==> (n in env <==> n in readings)
      ensures forall n :: n != "equipment_id" && n in readings ==> env[n] == readings[n]
    {
      if equipment.Some? then readings["equipment_id" := StrV(equipment.value)] else readings - {"equipment_id"}
    }
  }

  datatype Piece = Literal(text: string) | Field(name: string)

  /** Every piece of the template shows up in its place. */
  predicate Shows(template: seq<Piece>, env: Env, parts: seq<Part>) {
    |parts| == |template| &&
    forall k :: 0 <= k < |template| ==>
      match template[k]
      case Literal(text) => parts[k] == Text(text)
      case Field(name) => name in env && parts[k] == Shown(env[name])
  }

  /** `message.format(**data)`: raises when the template names a missing entry. */
  function Render(template: seq<Piece>, env: Env): (r: Option<seq<Part>>)
    ensures r.Some? <==> forall p <- template :: p.Field? ==> p.name in env
    ensures r.Some? ==> Shows(template, env, r.value)
  {
    if template == [] then Some([]) else
    var rest := Render(template[1..], env);
    match template[0]
    case Literal(text) => if rest.None? then None else Some([Text(text)] + rest.value)
    case Field(name) => if rest.None? || name !in env then None else Some([Shown(env[name])] + rest.value)
  }

  class AlertRule {
    const ruleId: string
    const condition: Option<Expr>  // None: the text does not parse
    const severity: Severity
    const template: seq<Piece>
    const enabled: bool
    const cooldown: real
    var lastTriggered: map<Option<string>, real>

    /** Every time this rule fired, per equipment, oldest first. */
    ghost var firings: map<Option<string>, seq<real>>

    constructor (ruleId: string, condition: Option<Expr>, severity: Severity, template: seq<Piece>,
                 enabled: bool, cooldown: real)
      ensures Valid() && firings == map[]
      ensures this.ruleId == ruleId && this.condition == condition && this.severity == severity
      ensures this.template == template && this.enabled == enabled && this.cooldown == cooldown
    {
      this.ruleId, this.condition, this.severity := ruleId, condition, severity;
      this.template, this.enabled, this.cooldown := template, enabled, cooldown;
      lastTriggered, firings := map[], map[];
    }

    /** The stored timestamp is the latest firing, and firings of one equipment keep the cooldown apart. */
    ghost predicate Valid()
      reads this
    {
      lastTriggered.Keys == firings.Keys &&
      forall key <- firings :: History(firings[key], lastTriggered[key])
    }

    ghost predicate History(ts: seq<real>, last: real) {
      ts != [] && last == ts[|ts| - 1] && Spaced(ts, cooldown) && Spaced(ts, 0.0)
    }

    ghost function Times(key: Option<string>): seq<real>
      reads this
    {
      if key in firings then firings[key] else []
    }

    /** Some firing in the whole history is less than a cooldown old. */
    ghost predicate Cooling(key: Option<string>, at: real)
      reads this
    {
      exists k :: 0 <= k < |Times(key)| && at - Times(key)[k] < cooldown
    }

    ghost predicate WouldFire(data: Prediction, at: real)
      reads this
    {
      enabled && !Cooling(data.equipment, at) && Holds(condition, data.Variables())
    }

    /** The recorded firings after an evaluation at `at`. */
    ghost function FiringsAfter(data: Prediction, at: real): map<Option<string>, seq<real>>
      reads this
    {
      if WouldFire(data, at) then firings[data.equipment := Times(data.equipment) + [at]] else firings
    }

    /** No firing lies in the future. */
    ghost predicate Before(at: real)
      reads this
    {
      forall key <- firings, t <- firings[key] :: t <= at
    }

    /** The cooldown is checked against one clock reading and a firing is stored with a later one. */
    method Evaluate(data: Prediction, checkedAt: real, storedAt: real) returns (fired: bool)
      requires Valid() && Before(checkedAt) && checkedAt <= storedAt
      modifies this`lastTriggered, this`firings
      ensures Valid() && Before(storedAt)
      ensures fired == old(WouldFire(data, checkedAt))
      ensures firings == if fired then old(firings)[data.equipment := old(Times(data.equipment)) + [storedAt]]
                         else old(firings)
      ensures !fired ==> lastTriggered == old(lastTriggered)
    {
      if !enabled {
        return false;
      }
      var key := data.equipment;
      StoredTimestampSuffices(this, key, checkedAt);
      if key in lastTriggered {
        var elapsed := checkedAt - lastTriggered[key];
        if elapsed < cooldown {
          return false;
        }
      }
      var result := SafeEvaluate(condition, data.Variables());
      fired := result == Returned(BoolV(true));
      if fired {
        ghost var before := Times(key);
        forall k | 0 <= k < |before| ensures before[k] <= checkedAt {
          assert key in firings && before[k] in firings[key];
        }
        SpacedAppend(before, storedAt, cooldown);
        SpacedAppend(before, storedAt, 0.0);
        lastTriggered := lastTriggered[key := storedAt];
        firings := firings[key := before + [storedAt]];
      }
    }

    /** None when building the alert raises: no equipment, or a template entry is missing. */
    method CreateAlert(data: Prediction, now: Instant) returns (alert: Option<Alert>)
      ensures alert.Some? <==> data.equipment.Some? && Render(template, data.Variables()).Some?
      ensures alert.Some? ==>
                var a := alert.value;
                fresh(a) && a.ruleId == ruleId && a.equipment == data.equipment.value && a.severity == severity &&
                a.createdAt == now &&
                a.message == Render(template, data.Variables()).value &&
                a.status == Triggered && a.acknowledgedAt == None && a.resolvedAt == None
    {
      var message := Render(template, data.Variables());
      if message.None? || data.equipment.None? {
        return None;
      }
      var a := new Alert(ruleId, data.equipment.value, severity, message.value, now);
      return Some(a);
    }
  }

  /** A rule fires exactly when enabled, a cooldown after every earlier firing, on a condition that comes out true. */
  lemma FiresExactly(rule: AlertRule, data: Prediction, at: real)
    ensures rule.WouldFire(data, at) <==>
              rule.enabled &&
              (forall t <- rule.Times(data.equipment) :: at - t >= rule.cooldown) &&
              Meaning(rule.condition, data.Variables()) == Returned(BoolV(true))
  {
    var ts := rule.Times(data.equipment);
    assert forall k :: 0 <= k < |ts| ==> ts[k] in ts;
  }

  /** The single stored timestamp decides exactly as the whole history would. */
  lemma StoredTimestampSuffices(rule: AlertRule, key: Option<string>, at: real)
    requires rule.Valid()
    ensures rule.Cooling(key, at) <==> key in rule.lastTriggered && at - rule.lastTriggered[key] < rule.cooldown
  {
    var ts := rule.Times(key);
    if key in rule.firings {
      assert rule.History(ts, rule.lastTriggered[key]);
      assert at - ts[|ts| - 1] < rule.cooldown ==> rule.Cooling(key, at);
    }
    if rule.Cooling(key, at) {
      var k :| 0 <= k < |rule.Times(key)| && at - rule.Times(key)[k] < rule.cooldown;
      assert k < |ts| - 1 ==> Gap(ts, k, |ts| - 1) >= 0.0;
    }
  }

  /** In any interval of that length a rule fires for one equipment at most floor(length / cooldown) + 1 times. */
  lemma FiringRate(rule: AlertRule, key: Option<string>, from: real, length: real)
    requires rule.Valid() && rule.cooldown > 0.0 && length >= 0.0
    ensures |Within(rule.Times(key), from, from + length)| <= (length / rule.cooldown).Floor + 1
  {
    assert key in rule.firings ==> rule.History(rule.firings[key], rule.lastTriggered[key]);
    RateBound(rule.Times(key), rule.cooldown, from, length);
  }
}
