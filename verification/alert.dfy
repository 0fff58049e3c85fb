/** Alerts, their identifiers and their life cycle. */
module Alerts {
  import opened Common
  import opened SafeEval

  datatype Severity = Info | Warning | Critical

  datatype Status = Triggered | Acknowledged | Resolved | Suppressed

  /** A message is the rule's template with values filled in; nothing here depends on how a value prints. */
  datatype Part = Text(text: string) | Shown(value: Value) | Aggregated(count: nat)

  /** Decimal digits, as Python prints a natural number. */
  function Decimal(n: nat): (d: string)
    ensures |d| > 0 && '_' !in d
  {
    if n < 10 then [Digit(n)] else Decimal(n / 10) + [Digit(n % 10)]
  }

  function Digit(n: nat): (c: char)
    requires n < 10
    ensures '0' <= c <= '9'
  {
    '0' + n as char
  }

  /** The value of a text of digits, as Python's `int` reads it. */
  function ReadNumber(d: string): int {
    if d == "" then 0 else ReadNumber(d[..|d| - 1]) * 10 + (d[|d| - 1] as int - '0' as int)
  }

  /** The digits of a number read as that number, and do not start with a zero unless that is all there is. */
  lemma {:induction false} DecimalReadsBack(n: nat)
    ensures ReadNumber(Decimal(n)) == n
    ensures forall c <- Decimal(n) :: '0' <= c <= '9'
    ensures Decimal(n)[0] == '0' <==> n == 0
  {
    var d := Decimal(n);
    if n < 10 {
      assert d[..0] == "" && ReadNumber(d[..0]) == 0;
    } else {
      DecimalReadsBack(n / 10);
      assert d[..|d| - 1] == Decimal(n / 10);
    }
  }

  lemma {:induction false} DecimalInjective(m: nat, n: nat)
    requires Decimal(m) == Decimal(n)
    ensures m == n
  {
    var d := Decimal(m);
    assert d[|d| - 1] == Digit(m % 10) == Digit(n % 10);
    OneDigit(m);
    OneDigit(n);
    if m >= 10 {
      assert d[..|d| - 1] == Decimal(m / 10) == Decimal(n / 10);
      DecimalInjective(m / 10, n / 10);
    }
  }

  lemma OneDigit(n: nat)
    ensures |Decimal(n)| == 1 <==> n < 10
  {
  }

  /** Seconds since 1970. */
  type Instant = t: real | t >= 0.0

  /** `f"{rule_id}_{equipment_id}_{int(timestamp)}"`, in whole seconds. */
  function AlertId(ruleId: string, equipment: string, at: Instant): string {
    ruleId + "_" + equipment + "_" + Decimal(at.Floor)
  }

  /** An identifier is the rule, the equipment and the second, with underscores in between. */
  lemma AlertIdLayout(ruleId: string, equipment: string, at: Instant)
    ensures var id, front := AlertId(ruleId, equipment, at), ruleId + "_" + equipment + "_";
            front <= id && ReadNumber(id[|front|..]) == at.Floor && '_' !in id[|front|..]
  {
    var front := ruleId + "_" + equipment + "_";
    assert AlertId(ruleId, equipment, at) == front + Decimal(at.Floor);
    assert (front + Decimal(at.Floor))[|front|..] == Decimal(at.Floor);
    DecimalReadsBack(at.Floor);
  }

  /** An underscore followed by digits can be read back off the end of a text. */
  lemma LastFieldIsUnique(a: string, b: string, d: string, e: string)
    requires a + "_" + d == b + "_" + e
    requires '_' !in d && '_' !in e
    ensures a == b && d == e
  {
    var whole := a + "_" + d;
    assert whole[|a|] == '_' && whole[|b|] == '_';
    assert forall k :: |a| < k < |whole| ==> whole[k] in d;
    assert forall k :: |b| < k < |whole| ==> whole[k] in e;
    assert a == whole[..|a|] == b;
    assert d == whole[|a| + 1..] == e;
  }

  /** Identifiers are equal exactly when rule and equipment join to the same text and the seconds are the same. */
  lemma AlertIdsEqualIff(rule: string, e: string, at: Instant, other: string, f: string, later: Instant)
    ensures AlertId(rule, e, at) == AlertId(other, f, later) <==>
              (rule + "_" + e == other + "_" + f && at.Floor == later.Floor)
  {
    var a, b := rule + "_" + e, other + "_" + f;
    var d, d' := Decimal(at.Floor), Decimal(later.Floor);
    assert AlertId(rule, e, at) == a + "_" + d && AlertId(other, f, later) == b + "_" + d';
    if a + "_" + d == b + "_" + d' {
      LastFieldIsUnique(a, b, d, d');
      DecimalInjective(at.Floor, later.Floor);
    }
  }

  /** A rule identifier continues another one after an underscore. */
  predicate Extends(rule: string, other: string) {
    other + "_" <= rule
  }

  /** A longer rule identifier can only share a joined text with one that it extends. */
  lemma JoinedTextExtends(rule: string, e: string, other: string, f: string)
    requires rule + "_" + e == other + "_" + f && |rule| > |other|
    ensures Extends(rule, other)
  {
    var whole := rule + "_" + e;
    assert whole[..|other| + 1] == other + "_";
    assert whole[..|rule|] == rule;
  }

  /** With equipment named after the rest of the longer identifier, the two do share one. */
  lemma ExtensionCollides(rule: string, other: string, e: string, at: Instant)
    requires Extends(rule, other)
    ensures AlertId(rule, e, at) == AlertId(other, rule[|other| + 1..] + "_" + e, at)
  {
    var rest := rule[|other| + 1..];
    var f := rest + "_" + e;
    assert rule == other + "_" + rest;
    assert rule + "_" + e == other + "_" + f;
    AlertIdsEqualIff(rule, e, at, other, f, at);
  }

  /**
   Two rules can give equal identifiers for some equipment at some time if and only if
   one rule's identifier extends the other's.
  */
  lemma AlertIdsCollideIff(rule: string, other: string)
    requires rule != other
    ensures (exists e: string, f: string, at: Instant, later: Instant ::
               AlertId(rule, e, at) == AlertId(other, f, later)) <==>
            (Extends(rule, other) || Extends(other, rule))
  {
    if Extends(rule, other) {
      ExtensionCollides(rule, other, "", 0.0);
    } else if Extends(other, rule) {
      ExtensionCollides(other, rule, "", 0.0);
      assert AlertId(rule, other[|rule| + 1..] + "_" + "", 0.0) == AlertId(other, "", 0.0);
    }
    forall e: string, f: string, at: Instant, later: Instant | AlertId(rule, e, at) == AlertId(other, f, later)
      ensures Extends(rule, other) || Extends(other, rule)
    {
      AlertIdsEqualIff(rule, e, at, other, f, later);
      RulesDifferInLength(rule, e, other, f);
      if |rule| > |other| {
        JoinedTextExtends(rule, e, other, f);
      } else {
        JoinedTextExtends(other, f, rule, e);
      }
    }
  }

  lemma RulesDifferInLength(rule: string, e: string, other: string, f: string)
    requires rule + "_" + e == other + "_" + f && rule != other
    ensures |rule| != |other|
  {
    assert (rule + "_" + e)[..|rule|] == rule && (other + "_" + f)[..|other|] == other;
  }

  /** For one equipment an identifier determines the rule and the second. */
  lemma AlertIdInjective(rule: string, other: string, equipment: string, at: Instant, later: Instant)
    requires AlertId(rule, equipment, at) == AlertId(other, equipment, later)
    ensures rule == other && at.Floor == later.Floor
  {
    AlertIdsEqualIff(rule, equipment, at, other, equipment, later);
    var a, b := rule + "_" + equipment, other + "_" + equipment;
    assert rule == a[..|a| - |"_" + equipment|] && other == b[..|b| - |"_" + equipment|];
  }

  class Alert {
    const ruleId: string
    const equipment: string
    const severity: Severity
    const createdAt: Instant
    const alertId: string := AlertId(ruleId, equipment, createdAt)
    var message: seq<Part>
    var status: Status
    var acknowledgedAt: Option<real>
    var acknowledgedBy: Option<string>
    var resolvedAt: Option<real>

    constructor (ruleId: string, equipment: string, severity: Severity, message: seq<Part>, now: Instant)
      ensures this.ruleId == ruleId && this.equipment == equipment && this.severity == severity
      ensures createdAt == now
      ensures this.message == message && status == Triggered
      ensures acknowledgedAt == None && acknowledgedBy == None && resolvedAt == None
    {
      this.ruleId, this.equipment, this.severity, this.createdAt := ruleId, equipment, severity, now;
      this.message, this.status := message, Triggered;
      this.acknowledgedAt, this.acknowledgedBy, this.resolvedAt := None, None, None;
    }

    /** Allowed in every state: acknowledging a resolved alert makes it active again. */
    method Acknowledge(user: string, now: real)
      modifies this`status, this`acknowledgedAt, this`acknowledgedBy
      ensures status == Acknowledged && acknowledgedAt == Some(now) && acknowledgedBy == Some(user)
    {
      status, acknowledgedAt, acknowledgedBy := Acknowledged, Some(now), Some(user);
    }

    method Resolve(now: real)
      modifies this`status, this`resolvedAt
      ensures status == Resolved && resolvedAt == Some(now)
    {
      status, resolvedAt := Resolved, Some(now);
    }

    method Suppress()
      modifies this`status
      ensures status == Suppressed
    {
      status := Suppressed;
    }
  }
}
