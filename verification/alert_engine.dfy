/** The rule engine: history, active lists, statistics, acknowledgement and resolution. */
module AlertEngine {
  import opened Common
  import opened Alerts
  import opened AlertRules

  // ------------------------------------------------------------ suppression

  /** `start` or `end` is None when the configured text is not a date. */
  datatype MaintenanceWindow = MaintenanceWindow(equipment: string, start: Option<real>, end: Option<real>)

  /** `suppressBelow` is None when the configured name is not a severity. */
  datatype Suppression = Suppression(enabled: bool, windows: seq<MaintenanceWindow>,
                                     incidentMode: bool, suppressBelow: Option<Severity>)

  /** Failed: deciding raises, and the engine drops the alert. */
  datatype Verdict = Kept | Muted | Failed

  function Rank(s: Severity): nat {
    match s case Info => 0 case Warning => 1 case Critical => 2
  }

  predicate Covers(w: MaintenanceWindow, now: Instant) {
    w.start.Some? && w.end.Some? && w.start.value <= now <= w.end.value
  }

  predicate Malformed(w: MaintenanceWindow) {
    w.start.None? || w.end.None?
  }

  /** The first window of this equipment that covers `now` or cannot be read decides, then incident mode. */
  function Judge(config: Suppression, windows: seq<MaintenanceWindow>, equipment: string,
                 severity: Severity, now: Instant): Verdict
  {
    if !config.enabled then Kept
    else if windows != [] then
      if windows[0].equipment == equipment && Malformed(windows[0]) then Failed
      else if windows[0].equipment == equipment && Covers(windows[0], now) then Muted
      else Judge(config, windows[1..], equipment, severity, now)
    else if !config.incidentMode then Kept
    else if config.suppressBelow.None? then Failed
    else if Rank(severity) < Rank(config.suppressBelow.value) then Muted
    else Kept
  }

  /** The severities that incident mode lets nobody see. */
  predicate BelowLevel(severity: Severity, level: Severity) {
    match level
    case Info => false
    case Warning => severity == Info
    case Critical => severity == Info || severity == Warning
  }

  /**
   Whatever the settings, an alert is kept exactly if suppression is off, or each window of
   its equipment can be read and does not span the time, and incident mode, if on, has a
   level that the severity is not below: at level Warning it shows no Info, at level
   Critical only Critical.
  */
  lemma {:induction false} KeptExactly(config: Suppression, windows: seq<MaintenanceWindow>, equipment: string,
                                       severity: Severity, now: Instant)
    ensures Judge(config, windows, equipment, severity, now) == Kept <==>
              !config.enabled ||
              ((forall w <- windows | w.equipment == equipment ::
                  w.start.Some? && w.end.Some? && (now < w.start.value || w.end.value < now)) &&
               (config.incidentMode ==>
                  config.suppressBelow.Some? &&
                  (config.suppressBelow.value == Warning ==> severity != Info) &&
                  (config.suppressBelow.value == Critical ==> severity == Critical)))
  {
    if windows != [] {
      KeptExactly(config, windows[1..], equipment, severity, now);
      assert windows == [windows[0]] + windows[1..];
    }
  }

  /** With readable settings an alert is muted exactly in a maintenance window or below the incident level. */
  lemma {:induction false} MutedExactly(config: Suppression, windows: seq<MaintenanceWindow>, equipment: string,
                                        severity: Severity, now: Instant)
    requires forall w <- windows :: w.start.Some? && w.end.Some?
    requires config.incidentMode ==> config.suppressBelow.Some?
    ensures Judge(config, windows, equipment, severity, now) ==
            if config.enabled &&
               ((exists w <- windows :: w.equipment == equipment && w.start.value <= now <= w.end.value) ||
                (config.incidentMode && BelowLevel(severity, config.suppressBelow.value)))
            then Muted else Kept
  {
    if windows != [] {
      MutedExactly(config, windows[1..], equipment, severity, now);
      assert windows == [windows[0]] + windows[1..];
    }
  }

  // ------------------------------------------------- views of an alert trace

  /** The alerts of one equipment, in order. */
  function ForEquipment(s: seq<Alert>, e: string): seq<Alert> {
    if s == [] then [] else
    var last := s[|s| - 1];
    ForEquipment(s[..|s| - 1], e) + if last.equipment == e then [last] else []
  }

  /** The equipment of a trace in order of first appearance: the key order of the active dictionary. */
  function FirstSeen(s: seq<Alert>): seq<string> {
    if s == [] then [] else
    var before := FirstSeen(s[..|s| - 1]);
    var e := s[|s| - 1].equipment;
    if e in before then before else before + [e]
  }

  ghost predicate Distinct<T>(s: seq<T>) {
    forall i, j :: 0 <= i < j < |s| ==> s[i] != s[j]
  }

  lemma {:induction false} FirstSeenOnce(s: seq<Alert>)
    ensures Distinct(FirstSeen(s))
    ensures forall a <- s :: a.equipment in FirstSeen(s)
    ensures forall e <- FirstSeen(s) :: exists a <- s :: a.equipment == e
  {
    if s != [] {
      FirstSeenOnce(s[..|s| - 1]);
      forall e | e in FirstSeen(s) ensures exists a <- s :: a.equipment == e {
        if e == s[|s| - 1].equipment {
          assert s[|s| - 1] in s;
        } else {
          var a :| a in s[..|s| - 1] && a.equipment == e;
          assert a in s;
        }
      }
    }
  }

  lemma {:induction false} ForEquipmentMembers(s: seq<Alert>, e: string)
    ensures forall a <- ForEquipment(s, e) :: a in s && a.equipment == e
    ensures forall a <- s :: a.equipment == e ==> a in ForEquipment(s, e)
  {
    if s != [] { ForEquipmentMembers(s[..|s| - 1], e); }
  }

  /** All active lists one after the other. */
  function Listing(s: seq<Alert>, order: seq<string>): seq<Alert> {
    if order == [] then [] else
    var last := order[|order| - 1];
    Listing(s, order[..|order| - 1]) + ForEquipment(s, last)
  }

  lemma {:induction false} ListingMembers(s: seq<Alert>, order: seq<string>)
    ensures forall a <- Listing(s, order) :: a in s && a.equipment in order
    ensures forall a <- s :: a.equipment in order ==> a in Listing(s, order)
  {
    if order != [] {
      ListingMembers(s, order[..|order| - 1]);
      ForEquipmentMembers(s, order[|order| - 1]);
    }
  }

  function CountIn<T>(s: seq<T>, chosen: set<T>): (n: nat)
    ensures n <= |s|
  {
    if s == [] then 0
    else CountIn(s[..|s| - 1], chosen) + if s[|s| - 1] in chosen then 1 else 0
  }

  /** It counts the positions that hold a chosen element. */
  lemma {:induction false} ChosenCounted<T>(s: seq<T>, chosen: set<T>)
    ensures CountIn(s, chosen) == |set k: nat | k < |s| && s[k] in chosen|
  {
    if s != [] {
      var n := |s| - 1;
      ChosenCounted(s[..n], chosen);
      assert (set k: nat | k < |s| && s[k] in chosen)
          == (set k: nat | k < n && s[..n][k] in chosen) + if s[n] in chosen then {n} else {};
    }
  }

  lemma {:induction false} CountInConcat<T>(s: seq<T>, t: seq<T>, chosen: set<T>)
    ensures CountIn(s + t, chosen) == CountIn(s, chosen) + CountIn(t, chosen)
  {
    if t == [] {
      assert s + t == s;
    } else {
      assert (s + t)[..|s + t| - 1] == s + t[..|t| - 1];
      CountInConcat(s, t[..|t| - 1], chosen);
    }
  }

  lemma ConcatAssociates<T>(a: seq<T>, b: seq<T>, c: seq<T>)
    ensures (a + b) + c == a + (b + c)
  {
  }

  lemma {:induction false} ForEquipmentAppend(trace: seq<Alert>, alerts: seq<Alert>, e: string, k: string)
    requires forall i :: 0 <= i < |alerts| ==> alerts[i].equipment == e
    ensures ForEquipment(trace + alerts, k) ==
            if k == e then ForEquipment(trace, k) + alerts else ForEquipment(trace, k)
  {
    if alerts == [] {
      assert trace + alerts == trace;
    } else {
      var before, last := alerts[..|alerts| - 1], alerts[|alerts| - 1];
      ForEquipmentAppend(trace, before, e, k);
      var all := trace + alerts;
      assert all[..|all| - 1] == trace + before && all[|all| - 1] == last;
      if k == e {
        ConcatAssociates(ForEquipment(trace, k), before, [last]);
        assert before + [last] == alerts;
      }
    }
  }

  lemma {:induction false} ListingGrows(s: seq<Alert>, a: Alert, order: seq<string>, chosen: set<Alert>)
    requires Distinct(order)
    ensures CountIn(Listing(s + [a], order), chosen) ==
            CountIn(Listing(s, order), chosen) + if a in chosen && a.equipment in order then 1 else 0
  {
    if order != [] {
      var shorter, last := order[..|order| - 1], order[|order| - 1];
      ListingGrows(s, a, shorter, chosen);
      assert order == shorter + [last] && last !in shorter;
      ForEquipmentGrows(s, a, last);
      CountInConcat(Listing(s, shorter), ForEquipment(s, last), chosen);
      CountInConcat(Listing(s + [a], shorter), ForEquipment(s + [a], last), chosen);
      CountInConcat(ForEquipment(s, last), [a], chosen);
      assert CountIn([a], chosen) == (if a in chosen then 1 else 0);
    }
  }

  lemma ForEquipmentGrows(s: seq<Alert>, a: Alert, e: string)
    ensures ForEquipment(s + [a], e) == if a.equipment == e then ForEquipment(s, e) + [a] else ForEquipment(s, e)
  {
    assert (s + [a])[..|s|] == s;
  }

  /**
   However alerts are chosen, the listing holds as many of the chosen ones as the trace:
   taking one alert at a time, every alert is listed exactly as often as it was recorded.
  */
  lemma {:induction false} ListingPartitions(s: seq<Alert>, order: seq<string>, chosen: set<Alert>)
    requires Distinct(order)
    requires forall a <- s :: a.equipment in order
    ensures CountIn(Listing(s, order), chosen) == CountIn(s, chosen)
  {
    if s == [] {
      EmptyListing(order);
    } else {
      var shorter, last := s[..|s| - 1], s[|s| - 1];
      assert s == shorter + [last];
      ListingPartitions(shorter, order, chosen);
      ListingGrows(shorter, last, order, chosen);
    }
  }

  lemma {:induction false} EmptyListing(order: seq<string>)
    ensures Listing([], order) == []
  {
    if order != [] { EmptyListing(order[..|order| - 1]); }
  }

  /** Alerts whose status is triggered or acknowledged. */
  function Live(s: seq<Alert>): seq<Alert>
    reads s
  {
    if s == [] then [] else
    var last := s[|s| - 1];
    Live(s[..|s| - 1]) + if last.status in {Triggered, Acknowledged} then [last] else []
  }

  function BySeverity(s: seq<Alert>, severity: Option<Severity>): seq<Alert> {
    if s == [] then [] else
    var before, last := BySeverity(s[..|s| - 1], severity), s[|s| - 1];
    if severity.None? || last.severity == severity.value then before + [last] else before
  }

  function StatusCount(s: seq<Alert>, status: Status): (n: nat)
    reads s
    ensures n <= |s|
  {
    if s == [] then 0
    else StatusCount(s[..|s| - 1], status) + if s[|s| - 1].status == status then 1 else 0
  }

  function SeverityCount(s: seq<Alert>, severity: Severity): (n: nat) {
    if s == [] then 0
    else SeverityCount(s[..|s| - 1], severity) + if s[|s| - 1].severity == severity then 1 else 0
  }

  /** The positions of the alerts with that severity or status. */
  ghost function WithSeverity(s: seq<Alert>, severity: Severity): set<nat> {
    set k: nat | k < |s| && s[k].severity == severity
  }

  ghost function WithStatus(s: seq<Alert>, status: Status): set<nat>
    reads s
  {
    set k: nat | k < |s| && s[k].status == status
  }

  /** A breakdown by severity counts, for each severity, the alerts that have it. */
  lemma {:induction false} SeveritiesCounted(s: seq<Alert>, severity: Severity)
    ensures SeverityCount(s, severity) == |WithSeverity(s, severity)|
  {
    if s != [] {
      var n := |s| - 1;
      SeveritiesCounted(s[..n], severity);
      assert WithSeverity(s, severity)
          == WithSeverity(s[..n], severity) + if s[n].severity == severity then {n} else {};
    }
  }

  lemma {:induction false} StatusesCounted(s: seq<Alert>, status: Status)
    ensures StatusCount(s, status) == |WithStatus(s, status)|
  {
    if s != [] {
      var n := |s| - 1;
      StatusesCounted(s[..n], status);
      assert WithStatus(s, status) == WithStatus(s[..n], status) + if s[n].status == status then {n} else {};
    }
  }

  /** Each entry of both breakdowns is the number of alerts with that severity or status. */
  ghost predicate BreaksDown(st: Statistics, s: seq<Alert>)
    reads s
  {
    st.info == |WithSeverity(s, Info)| && st.warning == |WithSeverity(s, Warning)| &&
    st.critical == |WithSeverity(s, Critical)| &&
    st.triggered == |WithStatus(s, Triggered)| && st.acknowledged == |WithStatus(s, Acknowledged)| &&
    st.resolved == |WithStatus(s, Resolved)| && st.suppressed == |WithStatus(s, Suppressed)|
  }

  lemma BreakdownCounted(s: seq<Alert>)
    ensures forall v: Severity :: SeverityCount(s, v) == |WithSeverity(s, v)|
    ensures forall v: Status :: StatusCount(s, v) == |WithStatus(s, v)|
  {
    forall v: Severity ensures SeverityCount(s, v) == |WithSeverity(s, v)| {
      SeveritiesCounted(s, v);
    }
    forall v: Status ensures StatusCount(s, v) == |WithStatus(s, v)| {
      StatusesCounted(s, v);
    }
  }

  lemma {:induction false} CountsAddUp(s: seq<Alert>)
    ensures StatusCount(s, Triggered) + StatusCount(s, Acknowledged)
            + StatusCount(s, Resolved) + StatusCount(s, Suppressed) == |s|
    ensures SeverityCount(s, Info) + SeverityCount(s, Warning) + SeverityCount(s, Critical) == |s|
    ensures (forall a <- s :: a.status != Suppressed) ==> StatusCount(s, Suppressed) == 0
    ensures (forall a <- s :: a.status != Suppressed) ==> |Live(s)| == |s| - StatusCount(s, Resolved)
  {
    if s != [] { CountsAddUp(s[..|s| - 1]); }
  }

  lemma {:induction false} LiveCount(s: seq<Alert>, live: set<Alert>)
    requires forall a <- s :: a in live <==> a.status in {Triggered, Acknowledged}
    ensures |Live(s)| == CountIn(s, live)
  {
    if s != [] { LiveCount(s[..|s| - 1], live); }
  }

  /** Listing by equipment loses and repeats nothing: the live alerts are all but the resolved ones. */
  lemma LiveListing(s: seq<Alert>)
    requires forall a <- s :: a.status != Suppressed
    ensures |Live(Listing(s, FirstSeen(s)))| == |s| - StatusCount(s, Resolved)
  {
    var live := set a | a in s && a.status in {Triggered, Acknowledged};
    var listed := Listing(s, FirstSeen(s));
    FirstSeenOnce(s);
    ListingMembers(s, FirstSeen(s));
    LiveCount(listed, live);
    LiveCount(s, live);
    ListingPartitions(s, FirstSeen(s), live);
    CountsAddUp(s);
  }

  /** The first alert with that identifier. */
  function FirstMatch(s: seq<Alert>, id: string): Option<Alert> {
    if s == [] then None
    else if s[0].alertId == id then Some(s[0])
    else FirstMatch(s[1..], id)
  }

  lemma {:induction false} FirstMatchFound(s: seq<Alert>, id: string)
    ensures FirstMatch(s, id).Some? <==> exists a <- s :: a.alertId == id
    ensures FirstMatch(s, id).Some? ==> FirstMatch(s, id).value in s && FirstMatch(s, id).value.alertId == id
  {
    if s != [] { FirstMatchFound(s[1..], id); }
  }

  lemma {:induction false} FirstMatchConcat(s: seq<Alert>, t: seq<Alert>, id: string)
    ensures FirstMatch(s + t, id) == if FirstMatch(s, id).Some? then FirstMatch(s, id) else FirstMatch(t, id)
  {
    if s == [] {
      assert s + t == t;
    } else {
      assert (s + t)[1..] == s[1..] + t;
      FirstMatchConcat(s[1..], t, id);
    }
  }

  datatype Statistics = Statistics(total: nat, active: nat,
                                   info: nat, warning: nat, critical: nat,
                                   triggered: nat, acknowledged: nat, resolved: nat, suppressed: nat)

  const HISTORY_LIMIT: nat := 1000

  // -------------------------------------------------------- trace invariants

  /** The cooldown of the rule with that identifier. */
  function CooldownOf(rules: seq<AlertRule>, ruleId: string): Option<real> {
    if rules == [] then None
    else if rules[0].ruleId == ruleId then Some(rules[0].cooldown)
    else CooldownOf(rules[1..], ruleId)
  }

  lemma {:induction false} CooldownFound(rules: seq<AlertRule>, i: nat)
    requires forall i, j :: 0 <= i < j < |rules| ==> rules[i].ruleId != rules[j].ruleId
    requires i < |rules|
    ensures CooldownOf(rules, rules[i].ruleId) == Some(rules[i].cooldown)
  {
    if i > 0 { CooldownFound(rules[1..], i - 1); }
  }

  /** An alert belongs to a rule and is not from the future. */
  ghost predicate Stamped(a: Alert, rules: seq<AlertRule>, clock: Instant) {
    a.createdAt <= clock && CooldownOf(rules, a.ruleId).Some?
  }

  predicate SameSource(a: Alert, b: Alert) {
    a.ruleId == b.ruleId && a.equipment == b.equipment
  }

  /** Two alerts of one rule for one equipment, `a` first, are a cooldown apart. */
  ghost predicate Apart(a: Alert, b: Alert, rules: seq<AlertRule>) {
    SameSource(a, b) && CooldownOf(rules, b.ruleId).Some? ==>
      b.createdAt - a.createdAt >= CooldownOf(rules, b.ruleId).value
  }

  ghost predicate TraceValid(trace: seq<Alert>, rules: seq<AlertRule>, clock: Instant) {
    (forall a <- trace :: Stamped(a, rules, clock)) &&
    forall i, j {:trigger Apart(trace[i], trace[j], rules)} ::
      0 <= i < j < |trace| ==> Apart(trace[i], trace[j], rules)
  }

  lemma TraceGrows(trace: seq<Alert>, a: Alert, rules: seq<AlertRule>, clock: Instant)
    requires TraceValid(trace, rules, clock)
    requires Stamped(a, rules, clock) && forall b <- trace :: Apart(b, a, rules)
    ensures TraceValid(trace + [a], rules, clock)
  {
    var grown := trace + [a];
    forall i, j | 0 <= i < j < |grown| ensures Apart(grown[i], grown[j], rules) {
      assert j == |trace| ==> grown[i] in trace;
    }
  }

  ghost predicate RulesValid(rules: seq<AlertRule>, clock: Instant)
    reads rules
  {
    (forall i, j {:trigger rules[i].ruleId, rules[j].ruleId} ::
       0 <= i < j < |rules| ==> rules[i].ruleId != rules[j].ruleId) &&
    forall r <- rules :: r.Valid() && r.Before(clock)
  }

  /** Every alert stems from a firing its rule remembers. */
  ghost predicate Remembered(trace: seq<Alert>, rules: seq<AlertRule>)
    reads rules
  {
    forall a, r {:trigger RemembersAlert(r, a)} | a in trace && r in rules :: RemembersAlert(r, a)
  }

  ghost predicate RemembersAlert(r: AlertRule, a: Alert)
    reads r
  {
    r.ruleId == a.ruleId ==> a.createdAt in r.Times(Some(a.equipment))
  }

  ghost predicate NoneSuppressed(trace: seq<Alert>)
    reads (set a | a in trace)`status
  {
    forall a <- trace :: a.status != Suppressed
  }

  /** The dictionary of active lists that recording a trace builds. */
  function ActiveLists(s: seq<Alert>): map<string, seq<Alert>> {
    if s == [] then map[] else
    var active := ActiveLists(s[..|s| - 1]);
    var a := s[|s| - 1];
    active[a.equipment := (if a.equipment in active then active[a.equipment] else []) + [a]]
  }

  /** Each list is the projection of the whole trace on its equipment, and the keys are the equipment seen. */
  lemma {:induction false} ActiveListsAreProjections(s: seq<Alert>)
    ensures forall e :: e in ActiveLists(s) <==> e in FirstSeen(s)
    ensures forall e <- ActiveLists(s) :: ActiveLists(s)[e] == ForEquipment(s, e)
  {
    if s != [] {
      var before := s[..|s| - 1];
      var a := s[|s| - 1];
      ActiveListsAreProjections(before);
      if a.equipment !in FirstSeen(before) { Unseen(before, a.equipment); }
    }
  }

  lemma {:induction false} Unseen(s: seq<Alert>, e: string)
    requires e !in FirstSeen(s)
    ensures ForEquipment(s, e) == []
  {
    if s != [] { Unseen(s[..|s| - 1], e); }
  }

  lemma OtherRulesDiffer(rules: seq<AlertRule>, i: nat)
    requires forall i, j :: 0 <= i < j < |rules| ==> rules[i].ruleId != rules[j].ruleId
    requires i < |rules|
    ensures forall j :: 0 <= j < |rules| && j != i ==> rules[j] != rules[i]
  {
    assert forall j :: 0 <= j < |rules| && j != i ==> rules[j].ruleId != rules[i].ruleId;
  }

  /** The rule fires, its alert can be built, and suppression lets it through. */
  ghost predicate Records(rule: AlertRule, config: Suppression, data: Prediction, now: Instant)
    reads rule
  {
    rule.WouldFire(data, now) && data.equipment.Some? && Render(rule.template, data.Variables()).Some? &&
    Judge(config, config.windows, data.equipment.value, rule.severity, now) == Kept
  }

  ghost function Plan(rules: seq<AlertRule>, config: Suppression, data: Prediction, now: Instant): (p: seq<bool>)
    reads rules
    ensures |p| == |rules|
    ensures forall j :: 0 <= j < |p| ==> p[j] == Records(rules[j], config, data, now)
  {
    seq(|rules|, j requires 0 <= j < |rules| reads rules => Records(rules[j], config, data, now))
  }

  /** What every rule remembers after one evaluation of all of them. */
  ghost function NextFirings(rules: seq<AlertRule>, data: Prediction, now: Instant)
    : (next: seq<map<Option<string>, seq<real>>>)
    reads rules
    ensures |next| == |rules|
    ensures forall j :: 0 <= j < |next| ==> next[j] == rules[j].FiringsAfter(data, now)
  {
    seq(|rules|, j requires 0 <= j < |rules| reads rules => rules[j].FiringsAfter(data, now))
  }

  /** The first `n` rules remember what was foreseen. */
  ghost predicate Remember(rules: seq<AlertRule>, next: seq<map<Option<string>, seq<real>>>, n: nat)
    reads rules
  {
    n <= |next| == |rules| && forall j :: 0 <= j < n ==> rules[j].firings == next[j]
  }

  /** The rules from `i` on have yet to be evaluated, as planned; those before remember what was planned. */
  ghost predicate Underway(rules: seq<AlertRule>, config: Suppression, data: Prediction, now: Instant,
                           plan: seq<bool>, next: seq<map<Option<string>, seq<real>>>, i: nat)
    reads rules
  {
    Remember(rules, next, i) && |plan| == |rules| &&
    forall j :: i <= j < |rules| ==>
      plan[j] == Records(rules[j], config, data, now) && next[j] == rules[j].FiringsAfter(data, now)
  }

  lemma UnderwayInitially(rules: seq<AlertRule>, config: Suppression, data: Prediction, now: Instant)
    ensures Underway(rules, config, data, now, Plan(rules, config, data, now), NextFirings(rules, data, now), 0)
  {
  }

  /** The planned ones among the first `n` rules, in rule order. */
  function Chosen(rules: seq<AlertRule>, plan: seq<bool>, n: nat): seq<AlertRule>
    requires n <= |rules| == |plan|
  {
    if n == 0 then []
    else if plan[n - 1] then Chosen(rules, plan, n - 1) + [rules[n - 1]]
    else Chosen(rules, plan, n - 1)
  }

  /** The rules whose alerts one evaluation records, in rule order. */
  ghost function Recording(rules: seq<AlertRule>, config: Suppression, data: Prediction, now: Instant): seq<AlertRule>
    reads rules
  {
    Chosen(rules, Plan(rules, config, data, now), |rules|)
  }

  /**
   For readable settings: a rule records an alert exactly when it fires, the alert can be
   rendered, no maintenance window of the equipment spans the time, and incident mode does
   not exclude the severity.
  */
  lemma RecordsExactly(rule: AlertRule, config: Suppression, data: Prediction, now: Instant)
    requires forall w <- config.windows :: w.start.Some? && w.end.Some?
    requires config.incidentMode ==> config.suppressBelow.Some?
    ensures Records(rule, config, data, now) <==>
              rule.WouldFire(data, now) && data.equipment.Some? &&
              (forall p <- rule.template :: p.Field? ==> p.name in data.Variables()) &&
              (config.enabled ==>
                 (forall w <- config.windows | w.equipment == data.equipment.value ::
                    !(w.start.value <= now <= w.end.value)) &&
                 !(config.incidentMode && BelowLevel(rule.severity, config.suppressBelow.value)))
  {
    if data.equipment.Some? {
      MutedExactly(config, config.windows, data.equipment.value, rule.severity, now);
    }
  }

  /** The positions of the rules chosen, which are those planned, in order. */
  lemma {:induction false} ChosenAt(rules: seq<AlertRule>, plan: seq<bool>, n: nat) returns (at: seq<nat>)
    requires n <= |rules| == |plan|
    ensures |at| == |Chosen(rules, plan, n)|
    ensures forall k :: 0 <= k < |at| ==> at[k] < n && plan[at[k]] && Chosen(rules, plan, n)[k] == rules[at[k]]
    ensures forall j, k :: 0 <= j < k < |at| ==> at[j] < at[k]
    ensures forall i: nat :: i < n && plan[i] ==> i in at
  {
    at := [];
    if n > 0 {
      at := ChosenAt(rules, plan, n - 1);
      if plan[n - 1] {
        at := at + [n - 1];
      }
    }
  }

  /** An evaluation records for exactly the rules that would record by themselves, in their order, each once. */
  lemma RecordingExactly(rules: seq<AlertRule>, config: Suppression, data: Prediction, now: Instant)
    returns (at: seq<nat>)
    ensures |at| == |Recording(rules, config, data, now)|
    ensures forall k :: 0 <= k < |at| ==> at[k] < |rules| && Recording(rules, config, data, now)[k] == rules[at[k]]
    ensures forall j, k :: 0 <= j < k < |at| ==> at[j] < at[k]
    ensures forall i: nat :: i in at <==> i < |rules| && Records(rules[i], config, data, now)
  {
    var plan := Plan(rules, config, data, now);
    at := ChosenAt(rules, plan, |rules|);
    forall i: nat ensures i in at ==> i < |rules| && Records(rules[i], config, data, now) {
      if i in at {
        var k :| 0 <= k < |at| && at[k] == i;
      }
    }
  }

  /** What an alert recorded by a rule holds. */
  ghost predicate Built(a: Alert, rule: AlertRule, data: Prediction, now: Instant)
    reads a
  {
    data.equipment.Some? && Render(rule.template, data.Variables()).Some? &&
    a.ruleId == rule.ruleId && a.severity == rule.severity && a.equipment == data.equipment.value &&
    a.createdAt == now && a.message == Render(rule.template, data.Variables()).value && a.status == Triggered
  }

  /** One alert per recording rule, in rule order. */
  ghost predicate AllBuilt(alerts: seq<Alert>, recording: seq<AlertRule>, data: Prediction, now: Instant)
    reads alerts
  {
    |alerts| == |recording| &&
    forall k {:trigger Built(alerts[k], recording[k], data, now)} ::
      0 <= k < |alerts| ==> Built(alerts[k], recording[k], data, now)
  }

  lemma AllBuiltGrows(alerts: seq<Alert>, recording: seq<AlertRule>, a: Alert, rule: AlertRule,
                      data: Prediction, now: Instant)
    requires AllBuilt(alerts, recording, data, now) && Built(a, rule, data, now)
    ensures AllBuilt(alerts + [a], recording + [rule], data, now)
  {
  }

  /** The rule has just fired, a cooldown after each earlier firing; alerts of the same source stem from those. */
  ghost predicate Fired(trace: seq<Alert>, rule: AlertRule, key: Option<string>, earlier: seq<real>, now: Instant)
    reads rule
  {
    rule.Times(key) == earlier + [now] && (forall t <- earlier :: now - t >= rule.cooldown) &&
    forall b <- trace :: b.ruleId == rule.ruleId && Some(b.equipment) == key ==> b.createdAt in earlier
  }

  lemma RecordingKeepsInvariants(trace: seq<Alert>, a: Alert, rules: seq<AlertRule>, rule: AlertRule,
                                 earlier: seq<real>, clock: Instant)
    requires RulesValid(rules, clock) && rule in rules && a.ruleId == rule.ruleId
    requires Stamped(a, rules, clock) && a.createdAt == clock
    requires Fired(trace, rule, Some(a.equipment), earlier, clock)
    requires TraceValid(trace, rules, clock) && Remembered(trace, rules)
    ensures TraceValid(trace + [a], rules, clock) && Remembered(trace + [a], rules)
  {
    var i :| 0 <= i < |rules| && rules[i] == rule;
    CooldownFound(rules, i);
    forall b | b in trace ensures Apart(b, a, rules) {
    }
    TraceGrows(trace, a, rules, clock);
    forall r | r in rules ensures RemembersAlert(r, a) {
      if r.ruleId == a.ruleId {
        assert r == rule && clock in rule.Times(Some(a.equipment));
      }
    }
  }

  // ------------------------------------------------------------- the engine

  class AlertRuleEngine {
    const rules: seq<AlertRule>
    const suppression: Suppression
    var alertHistory: seq<Alert>
    var activeAlerts: map<string, seq<Alert>>
    /** Insertion order of the dictionary `active_alerts`. */
    var activeOrder: seq<string>

    /** Every alert ever recorded. */
    ghost var trace: seq<Alert>
    /** The latest clock reading. */
    ghost var clock: Instant

    constructor (rules: seq<AlertRule>, suppression: Suppression)
      requires forall i, j :: 0 <= i < j < |rules| ==> rules[i].ruleId != rules[j].ruleId
      requires forall r <- rules :: r.Valid() && r.firings == map[]
      ensures Valid() && trace == [] && clock == 0.0
      ensures this.rules == rules && this.suppression == suppression
    {
      this.rules, this.suppression := rules, suppression;
      alertHistory, activeAlerts, activeOrder := [], map[], [];
      trace, clock := [], 0.0;
    }

    ghost predicate Valid()
      reads this, rules, (set a | a in trace)`status
    {
      RulesValid(rules, clock) && Remembered(trace, rules) &&
      TraceValid(trace, rules, clock) && NoneSuppressed(trace) &&
      alertHistory == Suffix(trace, HISTORY_LIMIT) &&
      activeAlerts == ActiveLists(trace) && activeOrder == FirstSeen(trace)
    }

    method IsSuppressed(alert: Alert, now: Instant) returns (v: Verdict)
      modifies alert`status
      ensures v == Judge(suppression, suppression.windows, alert.equipment, alert.severity, now)
      ensures alert.status == if v == Muted then Suppressed else old(alert.status)
    {
      if !suppression.enabled {
        return Kept;
      }
      var windows := suppression.windows;
      var i := 0;
      while i < |windows|
        invariant 0 <= i <= |windows|
        invariant Judge(suppression, windows[i..], alert.equipment, alert.severity, now)
               == Judge(suppression, windows, alert.equipment, alert.severity, now)
        invariant alert.status == old(alert.status)
      {
        var w := windows[i];
        assert windows[i..][0] == w && windows[i..][1..] == windows[i + 1..];
        if w.equipment == alert.equipment {
          if Malformed(w) {
            return Failed;
          }
          if Covers(w, now) {
            alert.Suppress();
            return Muted;
          }
        }
        i := i + 1;
      }
      if suppression.incidentMode {
        if suppression.suppressBelow.None? {
          return Failed;
        }
        if Rank(alert.severity) < Rank(suppression.suppressBelow.value) {
          alert.Suppress();
          return Muted;
        }
      }
      return Kept;
    }

    method AddToHistory(alert: Alert)
      requires alertHistory == Suffix(trace, HISTORY_LIMIT)
      modifies this`alertHistory
      ensures alertHistory == Suffix(trace + [alert], HISTORY_LIMIT)
    {
      SuffixAppend(trace, alert, HISTORY_LIMIT);
      alertHistory := alertHistory + [alert];
      if |alertHistory| > HISTORY_LIMIT {
        alertHistory := alertHistory[|alertHistory| - HISTORY_LIMIT..];
      }
    }

    method AddToActive(alert: Alert)
      requires activeAlerts == ActiveLists(trace) && activeOrder == FirstSeen(trace)
      modifies this`activeAlerts, this`activeOrder
      ensures activeAlerts == ActiveLists(trace + [alert]) && activeOrder == FirstSeen(trace + [alert])
    {
      ActiveListsAreProjections(trace);
      assert (trace + [alert])[..|trace|] == trace;
      var e := alert.equipment;
      if e !in activeAlerts {
        activeAlerts := activeAlerts[e := []];
        activeOrder := activeOrder + [e];
      }
      activeAlerts := activeAlerts[e := activeAlerts[e] + [alert]];
    }

    /** Time passes. */
    ghost method Tick(now: Instant)
      requires Valid() && clock <= now
      modifies this`clock
      ensures Valid() && clock == now
    {
      clock := now;
    }

    /** The rule's own evaluation, which leaves the engine's invariants in place. */
    method FireRule(i: nat, data: Prediction, now: Instant) returns (fired: bool)
      requires Valid() && i < |rules| && now == clock
      modifies rules[i]
      ensures Valid()
      ensures fired == old(rules[i].WouldFire(data, now))
      ensures rules[i].firings == old(rules[i].FiringsAfter(data, now))
      ensures fired ==> Fired(trace, rules[i], data.equipment, old(rules[i].Times(data.equipment)), now)
    {
      var rule := rules[i];
      ghost var key := data.equipment;
      ghost var earlier := rule.Times(key);
      fired := rule.Evaluate(data, now, now);
      forall a, r | a in trace && r in rules ensures RemembersAlert(r, a) {
        assert old(RemembersAlert(r, a));
      }
      forall b | fired && b in trace && b.ruleId == rule.ruleId && Some(b.equipment) == key
        ensures b.createdAt in earlier
      {
        assert old(RemembersAlert(rule, b));
      }
    }

    /** The try block of the loop in `evaluate` for one rule. */
    method TryRule(i: nat, data: Prediction, now: Instant) returns (alert: Option<Alert>)
      requires Valid() && i < |rules| && now == clock
      modifies this`alertHistory, this`activeAlerts, this`activeOrder, this`trace, rules[i]
      ensures Valid()
      ensures alert.Some? <==> old(Records(rules[i], suppression, data, now))
      ensures rules[i].firings == old(rules[i].FiringsAfter(data, now))
      ensures trace == old(trace) + if alert.Some? then [alert.value] else []
      ensures alert.Some? ==> fresh(alert.value) && Built(alert.value, rules[i], data, now)
    {
      var rule := rules[i];
      ghost var times := rule.Times(data.equipment);
      var fired := FireRule(i, data, now);
      if !fired {
        return None;
      }
      alert := rule.CreateAlert(data, now);
      if alert.None? {
        return None;
      }
      var verdict := IsSuppressed(alert.value, now);
      if verdict != Kept {
        return None;
      }
      CooldownFound(rules, i);
      RecordingKeepsInvariants(trace, alert.value, rules, rule, times, now);
      Record(alert.value);
    }

    /** Append to the history and to the active list of the equipment. */
    method Record(a: Alert)
      requires Valid() && a.status == Triggered
      requires TraceValid(trace + [a], rules, clock) && Remembered(trace + [a], rules)
      modifies this`alertHistory, this`activeAlerts, this`activeOrder, this`trace
      ensures Valid() && trace == old(trace) + [a]
    {
      AddToHistory(a);
      AddToActive(a);
      trace := trace + [a];
    }

    /** One turn of the loop in `evaluate`. */
    method EvaluateRule(i: nat, data: Prediction, now: Instant, before: seq<Alert>, ghost plan: seq<bool>,
                        ghost next: seq<map<Option<string>, seq<real>>>, ghost base: seq<Alert>)
      returns (triggered: seq<Alert>)
      requires Valid() && i < |rules| && now == clock && trace == base + before
      requires Underway(rules, suppression, data, now, plan, next, i)
      requires AllBuilt(before, Chosen(rules, plan, i), data, now)
      modifies this`alertHistory, this`activeAlerts, this`activeOrder, this`trace, rules[i]
      ensures Valid() && trace == base + triggered
      ensures AllBuilt(triggered, Chosen(rules, plan, i + 1), data, now)
      ensures Underway(rules, suppression, data, now, plan, next, i + 1)
      ensures forall a <- triggered :: a in before || fresh(a)
    {
      OtherRulesDiffer(rules, i);
      triggered := before;
      var alert := TryRule(i, data, now);
      if alert.Some? {
        AllBuiltGrows(before, Chosen(rules, plan, i), alert.value, rules[i], data, now);
        triggered := before + [alert.value];
      }
    }

    /** `evaluate`: every rule in turn; the alerts recorded are exactly those of the recording rules. */
    method Evaluate(data: Prediction, now: Instant) returns (triggered: seq<Alert>)
      requires Valid() && clock <= now
      modifies this, rules
      ensures Valid() && clock == now
      ensures trace == old(trace) + triggered
      ensures AllBuilt(triggered, old(Recording(rules, suppression, data, now)), data, now)
      ensures Remember(rules, old(NextFirings(rules, data, now)), |rules|)
      ensures forall a <- triggered :: fresh(a)
    {
      triggered := [];
      ghost var base := trace;
      ghost var plan, next := Plan(rules, suppression, data, now), NextFirings(rules, data, now);
      Tick(now);
      UnderwayInitially(rules, suppression, data, now);
      var i := 0;
      while i < |rules|
        invariant 0 <= i <= |rules| && clock == now && Valid()
        invariant Underway(rules, suppression, data, now, plan, next, i)
        invariant trace == base + triggered
        invariant AllBuilt(triggered, Chosen(rules, plan, i), data, now)
        invariant forall a <- triggered :: fresh(a)
      {
        triggered := EvaluateRule(i, data, now, triggered, plan, next, base);
        i := i + 1;
      }
    }

    /** All active lists, in the order of the dictionary. */
    method AllLists() returns (alerts: seq<Alert>)
      requires Valid()
      ensures alerts == Listing(trace, FirstSeen(trace))
    {
      ActiveListsAreProjections(trace);
      alerts := [];
      var i := 0;
      while i < |activeOrder|
        invariant 0 <= i <= |activeOrder|
        invariant alerts == Listing(trace, activeOrder[..i])
      {
        assert activeOrder[..i + 1][..i] == activeOrder[..i];
        alerts := alerts + activeAlerts[activeOrder[i]];
        i := i + 1;
      }
      assert activeOrder[..i] == activeOrder;
    }

    /** `get_active_alerts`: an absent or empty equipment asks for all of them. */
    method GetActiveAlerts(equipment: Option<string>, severity: Option<Severity>) returns (alerts: seq<Alert>)
      requires Valid()
      ensures alerts == Live(BySeverity(Asked(trace, equipment), severity))
    {
      ActiveListsAreProjections(trace);
      alerts := [];
      if equipment.Some? && equipment.value != "" {
        if equipment.value in activeAlerts {
          alerts := activeAlerts[equipment.value];
        } else {
          Unseen(trace, equipment.value);
        }
      } else {
        alerts := AllLists();
      }
      alerts := BySeverity(alerts, severity);
      alerts := Live(alerts);
    }

    /** The nested search loops shared by `acknowledge_alert` and `resolve_alert`. */
    method FindAlert(id: string) returns (found: Option<Alert>)
      requires Valid()
      ensures found == FirstMatch(Listing(trace, FirstSeen(trace)), id)
    {
      ActiveListsAreProjections(trace);
      var i := 0;
      while i < |activeOrder|
        invariant 0 <= i <= |activeOrder|
        invariant FirstMatch(Listing(trace, activeOrder[..i]), id) == None
      {
        assert activeOrder[..i + 1][..i] == activeOrder[..i];
        var list := activeAlerts[activeOrder[i]];
        FirstMatchConcat(Listing(trace, activeOrder[..i]), list, id);
        found := FindIn(list, id);
        if found.Some? {
          RestOfListing(trace, activeOrder, i + 1, id);
          return;
        }
        i := i + 1;
      }
      assert activeOrder[..i] == activeOrder;
      return None;
    }

    /** Marks the first listed alert with that identifier and touches nothing else. */
    method AcknowledgeAlert(id: string, user: string, now: Instant) returns (ok: bool)
      requires Valid()
      modifies trace
      ensures Valid()
      ensures ok <==> exists a <- trace :: a.alertId == id
      ensures var hit := FirstMatch(Listing(trace, FirstSeen(trace)), id);
              (ok ==> hit.Some? && hit.value.alertId == id && hit.value.status == Acknowledged &&
                      hit.value.acknowledgedAt == Some(now) && hit.value.acknowledgedBy == Some(user)) &&
              forall a <- trace :: a.message == old(a.message) && (Some(a) != hit ==> unchanged(a))
    {
      var found := FindAlert(id);
      ListedMatch(trace, id);
      if found.None? {
        return false;
      }
      found.value.Acknowledge(user, now);
      return true;
    }

    method ResolveAlert(id: string, now: Instant) returns (ok: bool)
      requires Valid()
      modifies trace
      ensures Valid()
      ensures ok <==> exists a <- trace :: a.alertId == id
      ensures var hit := FirstMatch(Listing(trace, FirstSeen(trace)), id);
              (ok ==> hit.Some? && hit.value.alertId == id && hit.value.status == Resolved &&
                      hit.value.resolvedAt == Some(now)) &&
              forall a <- trace :: a.message == old(a.message) && (Some(a) != hit ==> unchanged(a))
    {
      var found := FindAlert(id);
      ListedMatch(trace, id);
      if found.None? {
        return false;
      }
      found.value.Resolve(now);
      return true;
    }

    /**
     The statistics of any reachable state: the history holds the last 1000 alerts, each
     breakdown sums to it, nothing is suppressed, and the active alerts are all alerts ever
     recorded except those currently resolved.
    */
    method GetStatistics() returns (st: Statistics)
      requires Valid()
      ensures st.total == if |trace| <= 1000 then |trace| else 1000
      ensures st.info + st.warning + st.critical == st.total
      ensures st.triggered + st.acknowledged + st.resolved == st.total && st.suppressed == 0
      ensures st.active == |trace| - StatusCount(trace, Resolved)
      ensures BreaksDown(st, Suffix(trace, 1000))
    {
      var history := alertHistory;
      var info, warning, critical := CountSeverities(history);
      var triggered, acknowledged, resolved, suppressed := CountStatuses(history);
      var active := GetActiveAlerts(None, None);
      CountsAddUp(history);
      LiveListing(trace);
      AnySeverity(Listing(trace, FirstSeen(trace)));
      assert forall a <- history :: a in trace;
      BreakdownCounted(history);
      st := Statistics(|history|, |active|, info, warning, critical, triggered, acknowledged, resolved, suppressed);
    }
  }

  /** The alerts a query is about, before filtering. */
  function Asked(trace: seq<Alert>, equipment: Option<string>): seq<Alert> {
    if equipment.Some? && equipment.value != "" then ForEquipment(trace, equipment.value)
    else Listing(trace, FirstSeen(trace))
  }

  lemma CountInSnoc(s: seq<Alert>, x: Alert, a: Alert)
    ensures CountIn(s + [x], {a}) == CountIn(s, {a}) + if x == a then 1 else 0
  {
    assert (s + [x])[..|s|] == s;
  }

  lemma EmptySnoc(s: seq<Alert>)
    ensures s + [] == s
  {
  }

  lemma {:induction false} ForEquipmentCounted(s: seq<Alert>, e: string, a: Alert)
    ensures CountIn(ForEquipment(s, e), {a}) == if a.equipment == e then CountIn(s, {a}) else 0
  {
    if s != [] {
      var before, last := s[..|s| - 1], s[|s| - 1];
      ForEquipmentCounted(before, e, a);
      CountInSnoc(ForEquipment(before, e), last, a);
      EmptySnoc(ForEquipment(before, e));
    }
  }

  lemma {:induction false} BySeverityCounted(s: seq<Alert>, severity: Option<Severity>, a: Alert)
    ensures CountIn(BySeverity(s, severity), {a})
         == if severity.None? || a.severity == severity.value then CountIn(s, {a}) else 0
  {
    if s != [] {
      var before, last := s[..|s| - 1], s[|s| - 1];
      BySeverityCounted(before, severity, a);
      CountInSnoc(BySeverity(before, severity), last, a);
    }
  }

  lemma {:induction false} LiveCounted(s: seq<Alert>, a: Alert)
    ensures CountIn(Live(s), {a}) == if a.status in {Triggered, Acknowledged} then CountIn(s, {a}) else 0
  {
    if s != [] {
      var before, last := s[..|s| - 1], s[|s| - 1];
      LiveCounted(before, a);
      CountInSnoc(Live(before), last, a);
      EmptySnoc(Live(before));
    }
  }

  /**
   A query delivers an alert exactly as often as it was recorded if the alert is of the
   equipment asked for (or none was), has the severity asked for (or none was) and is
   triggered or acknowledged, and not at all otherwise.
  */
  lemma ActiveExactly(trace: seq<Alert>, equipment: Option<string>, severity: Option<Severity>, a: Alert)
    ensures CountIn(Live(BySeverity(Asked(trace, equipment), severity)), {a}) ==
            if (equipment.Some? && equipment.value != "" ==> a.equipment == equipment.value) &&
               (severity.Some? ==> a.severity == severity.value) &&
               (a.status == Triggered || a.status == Acknowledged)
            then CountIn(trace, {a}) else 0
  {
    LiveCounted(BySeverity(Asked(trace, equipment), severity), a);
    BySeverityCounted(Asked(trace, equipment), severity, a);
    if equipment.Some? && equipment.value != "" {
      ForEquipmentCounted(trace, equipment.value, a);
    } else {
      FirstSeenOnce(trace);
      ListingPartitions(trace, FirstSeen(trace), {a});
    }
  }

  lemma {:induction false} AnySeverity(s: seq<Alert>)
    ensures BySeverity(s, None) == s
  {
    if s != [] {
      var before, last := s[..|s| - 1], s[|s| - 1];
      AnySeverity(before);
      assert BySeverity(s, None) == before + [last] == s;
    }
  }

  method FindIn(list: seq<Alert>, id: string) returns (found: Option<Alert>)
    ensures found == FirstMatch(list, id)
  {
    var j := 0;
    while j < |list|
      invariant 0 <= j <= |list|
      invariant FirstMatch(list, id) == FirstMatch(list[j..], id)
    {
      if list[j].alertId == id {
        return Some(list[j]);
      }
      assert list[j..][1..] == list[j + 1..];
      j := j + 1;
    }
    return None;
  }

  lemma {:induction false} RestOfListing(s: seq<Alert>, order: seq<string>, i: nat, id: string)
    requires i <= |order| && FirstMatch(Listing(s, order[..i]), id).Some?
    ensures FirstMatch(Listing(s, order), id) == FirstMatch(Listing(s, order[..i]), id)
    decreases |order|
  {
    if i == |order| {
      assert order[..i] == order;
    } else {
      var shorter := order[..|order| - 1];
      assert shorter[..i] == order[..i];
      RestOfListing(s, shorter, i, id);
      FirstMatchConcat(Listing(s, shorter), ForEquipment(s, order[|order| - 1]), id);
    }
  }

  /** Whatever was recorded is listed, so the search finds an identifier exactly when it exists. */
  lemma ListedMatch(trace: seq<Alert>, id: string)
    ensures var hit := FirstMatch(Listing(trace, FirstSeen(trace)), id);
            (hit.Some? <==> exists a <- trace :: a.alertId == id) &&
            (hit.Some? ==> hit.value in trace && hit.value.alertId == id)
  {
    FirstSeenOnce(trace);
    ListingMembers(trace, FirstSeen(trace));
    FirstMatchFound(Listing(trace, FirstSeen(trace)), id);
  }

  method CountSeverities(history: seq<Alert>) returns (info: nat, warning: nat, critical: nat)
    ensures info == SeverityCount(history, Info)
    ensures warning == SeverityCount(history, Warning)
    ensures critical == SeverityCount(history, Critical)
  {
    info, warning, critical := 0, 0, 0;
    for i := 0 to |history|
      invariant info == SeverityCount(history[..i], Info)
      invariant warning == SeverityCount(history[..i], Warning)
      invariant critical == SeverityCount(history[..i], Critical)
    {
      assert history[..i + 1][..i] == history[..i];
      match history[i].severity
      case Info => info := info + 1;
      case Warning => warning := warning + 1;
      case Critical => critical := critical + 1;
    }
    assert history[..|history|] == history;
  }

  method CountStatuses(history: seq<Alert>)
    returns (triggered: nat, acknowledged: nat, resolved: nat, suppressed: nat)
    ensures triggered == StatusCount(history, Triggered)
    ensures acknowledged == StatusCount(history, Acknowledged)
    ensures resolved == StatusCount(history, Resolved)
    ensures suppressed == StatusCount(history, Suppressed)
  {
    triggered, acknowledged, resolved, suppressed := 0, 0, 0, 0;
    for i := 0 to |history|
      invariant triggered == StatusCount(history[..i], Triggered)
      invariant acknowledged == StatusCount(history[..i], Acknowledged)
      invariant resolved == StatusCount(history[..i], Resolved)
      invariant suppressed == StatusCount(history[..i], Suppressed)
    {
      assert history[..i + 1][..i] == history[..i];
      match history[i].status
      case Triggered => triggered := triggered + 1;
      case Acknowledged => acknowledged := acknowledged + 1;
      case Resolved => resolved := resolved + 1;
      case Suppressed => suppressed := suppressed + 1;
    }
    assert history[..|history|] == history;
  }
}
