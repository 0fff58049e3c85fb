/** Paging through the active alerts of an engine: when it is complete, and runs after which it is not. */
module AlertPaging {
  import opened Common
  import opened Alerts
  import opened AlertRules
  import opened AlertEngine
  import opened AlertIdentifiers
  import opened AlertApi

  /** What `get_active_alerts` hands to the endpoint. */
  function Details(alerts: seq<Alert>): (r: seq<Detail>)
    reads alerts
    ensures |r| == |alerts|
    ensures forall k :: 0 <= k < |r| ==> r[k] == ToDetail(alerts[k])
  {
    if alerts == [] then [] else Details(alerts[..|alerts| - 1]) + [ToDetail(alerts[|alerts| - 1])]
  }

  /** `s` is `t` with some elements left out. */
  ghost predicate Thinned(s: seq<Alert>, t: seq<Alert>, at: seq<nat>) {
    |at| == |s| && (forall k :: 0 <= k < |s| ==> at[k] < |t| && s[k] == t[at[k]]) &&
    forall i, j :: 0 <= i < j < |at| ==> at[i] < at[j]
  }

  lemma ThinnedMore(s: seq<Alert>, t: seq<Alert>, at: seq<nat>, x: Alert)
    requires Thinned(s, t, at)
    ensures Thinned(s, t + [x], at) && Thinned(s + [x], t + [x], at + [|t|])
  {
  }

  lemma {:induction false} LiveIsThinned(t: seq<Alert>) returns (at: seq<nat>)
    ensures Thinned(Live(t), t, at)
  {
    at := [];
    if t != [] {
      var n := |t| - 1;
      var before := Live(t[..n]);
      at := LiveIsThinned(t[..n]);
      ThinnedMore(before, t[..n], at, t[n]);
      assert t == t[..n] + [t[n]];
      if t[n].status in {Triggered, Acknowledged} {
        at := at + [n];
      } else {
        assert before + [] == before;
      }
    }
  }

  lemma {:induction false} BySeverityIsThinned(t: seq<Alert>, severity: Option<Severity>) returns (at: seq<nat>)
    ensures Thinned(BySeverity(t, severity), t, at)
  {
    at := [];
    if t != [] {
      var n := |t| - 1;
      at := BySeverityIsThinned(t[..n], severity);
      ThinnedMore(BySeverity(t[..n], severity), t[..n], at, t[n]);
      assert t == t[..n] + [t[n]];
      if severity.None? || t[n].severity == severity.value {
        at := at + [n];
      }
    }
  }

  lemma ThinningKeepsDistinct(s: seq<Alert>, t: seq<Alert>, at: seq<nat>)
    requires Thinned(s, t, at)
    requires DistinctAlertIds(t)
    ensures DistinctAlertIds(s)
  {
  }

  lemma DetailsDistinct(s: seq<Alert>)
    requires DistinctAlertIds(s)
    ensures DistinctIds(Details(s))
  {
    var list := Details(s);
    forall d | d in list ensures d.alertId != "" {
      var k :| 0 <= k < |list| && list[k] == d;
      NotEmpty(s[k]);
    }
    forall i: nat, j: nat | i < j < |list| ensures !Clash(list, i, j) {
      assert list[i] == ToDetail(s[i]) && list[j] == ToDetail(s[j]);
    }
  }

  /** However it is filtered, a listing keeps its identifiers distinct. */
  lemma FilteredDistinct(own: seq<Alert>, severity: Option<Severity>)
    requires DistinctAlertIds(own)
    ensures DistinctIds(Details(Live(BySeverity(own, severity))))
  {
    var wanted := BySeverity(own, severity);
    var at := BySeverityIsThinned(own, severity);
    ThinningKeepsDistinct(wanted, own, at);
    var at' := LiveIsThinned(wanted);
    ThinningKeepsDistinct(Live(wanted), wanted, at');
    DetailsDistinct(Live(wanted));
  }

  lemma DistinctIsReadOnce(listed: seq<Alert>, severity: Option<Severity>, limit: nat)
    requires limit >= 1 && DistinctAlertIds(listed)
    ensures ReadsAll(Details(Live(BySeverity(listed, severity))), limit)
  {
    FilteredDistinct(listed, severity);
    PagingIsComplete(Details(Live(BySeverity(listed, severity))), limit);
  }

  /**
   In every reachable state of an engine whose cooldowns are at least a second, paging
   through the active alerts of one equipment reads each of them exactly once.
  */
  lemma PagesOfOneEquipment(engine: AlertRuleEngine, e: string, severity: Option<Severity>, limit: nat)
    requires engine.Valid() && limit >= 1 && e != ""
    requires forall r <- engine.rules :: r.cooldown >= 1.0
    ensures ReadsAll(Details(Live(BySeverity(Asked(engine.trace, Some(e)), severity))), limit)
  {
    IdentifiersDistinct(engine, e);
    DistinctIsReadOnce(Asked(engine.trace, Some(e)), severity, limit);
  }

  /**
   If moreover no rule identifier extends another, so does paging through the alerts of
   the whole fleet, which is what a request without an equipment asks for, and through
   any other selection.
  */
  lemma PagesOfFleet(engine: AlertRuleEngine, asked: Option<string>, severity: Option<Severity>, limit: nat)
    requires engine.Valid() && limit >= 1 && Separate(engine.rules)
    requires forall r <- engine.rules :: r.cooldown >= 1.0
    ensures ReadsAll(Details(Live(BySeverity(Asked(engine.trace, asked), severity))), limit)
  {
    FleetIdentifiersDistinct(engine);
    if asked.Some? && asked.value != "" {
      IdentifiersDistinct(engine, asked.value);
    }
    DistinctIsReadOnce(Asked(engine.trace, asked), severity, limit);
  }

  lemma NotEmpty(a: Alert)
    ensures '_' in a.alertId
  {
    assert a.alertId == a.ruleId + "_" + (a.equipment + "_" + Decimal(a.createdAt.Floor));
    assert a.alertId[|a.ruleId|] == '_';
  }

  // ------------------------------------------------ runs after which it is not

  lemma {:induction false} FirstSeenBlock(s: seq<Alert>, t: seq<Alert>, e: string)
    requires e !in FirstSeen(s) && t != [] && forall a <- t :: a.equipment == e
    ensures FirstSeen(s + t) == FirstSeen(s) + [e]
  {
    var n := |t| - 1;
    assert (s + t)[..|s + t| - 1] == s + t[..n] && t[n] in t;
    if n == 0 {
      assert s + t[..n] == s;
    } else {
      FirstSeenBlock(s, t[..n], e);
    }
  }

  lemma {:induction false} ListingWithoutBlock(s: seq<Alert>, t: seq<Alert>, e: string, order: seq<string>)
    requires e !in order && forall a <- t :: a.equipment == e
    ensures Listing(s + t, order) == Listing(s, order)
  {
    if order != [] {
      ListingWithoutBlock(s, t, e, order[..|order| - 1]);
      ForEquipmentAppend(s, t, e, order[|order| - 1]);
    }
  }

  /** The whole listing, in the order of the dictionary. */
  function Whole(s: seq<Alert>): seq<Alert> {
    Listing(s, FirstSeen(s))
  }

  /** The alerts of equipment not seen before are listed behind all others. */
  lemma {:induction false} NewEquipmentListedLast(s: seq<Alert>, t: seq<Alert>, e: string)
    requires e !in FirstSeen(s) && t != [] && forall a <- t :: a.equipment == e
    ensures Whole(s + t) == Whole(s) + t && FirstSeen(s + t) == FirstSeen(s) + [e]
  {
    FirstSeenBlock(s, t, e);
    ListingWithoutBlock(s, t, e, FirstSeen(s));
    ForEquipmentAppend(s, t, e, e);
    Unseen(s, e);
    assert [] + t == t;
    assert (FirstSeen(s) + [e])[..|FirstSeen(s)|] == FirstSeen(s);
  }

  /** Nothing is filtered out while everything is triggered. */
  lemma {:induction false} AllLive(s: seq<Alert>)
    requires forall a <- s :: a.status == Triggered
    ensures Live(s) == s
  {
    if s != [] {
      var n := |s| - 1;
      AllLive(s[..n]);
      assert s[n] in s && s == s[..n] + [s[n]];
    }
  }

  lemma RepeatedCursor(list: seq<Detail>, limit: nat, k: nat, j: nat, p: nat)
    requires limit >= 1 && k >= 1 && p == k * limit && p < |list| && j < p - 1
    requires list[j].alertId == list[p - 1].alertId
    ensures !ReadsAll(list, limit)
  {
    assert !CursorFirst(list, limit, k);
    PagingIsCompleteIff(list, limit);
  }

  lemma {:induction false} NothingFiltered(listed: seq<Alert>)
    requires forall a <- listed :: a.status == Triggered
    ensures Details(Live(BySeverity(listed, None))) == Details(listed)
  {
    AnySeverity(listed);
    AllLive(listed);
  }

  /** Paging fails where a full page ends on an identifier that an earlier alert has. */
  lemma {:induction false} RepeatedCursorFails(listed: seq<Alert>, limit: nat, k: nat, j: nat, p: nat)
    requires limit >= 1 && k >= 1 && p == k * limit && p < |listed| && j < p - 1
    requires forall a <- listed :: a.status == Triggered
    requires listed[j].alertId == listed[p - 1].alertId
    ensures !ReadsAll(Details(Live(BySeverity(listed, None))), limit)
  {
    NothingFiltered(listed);
    RepeatedCursor(Details(listed), limit, k, j, p);
  }

  lemma {:induction false} OnlyEquipment(s: seq<Alert>, e: string)
    requires forall a <- s :: a.equipment == e
    ensures ForEquipment(s, e) == s
  {
    if s != [] {
      var n := |s| - 1;
      OnlyEquipment(s[..n], e);
      assert s[n] in s && s == s[..n] + [s[n]];
    }
  }

  lemma {:induction false} SingleEquipmentListing(s: seq<Alert>, e: string)
    requires s != [] && forall a <- s :: a.equipment == e
    ensures Whole(s) == s
  {
    NewEquipmentListedLast(s[..0], s, e);
    assert s[..0] + s == s && Whole(s[..0]) == [];
  }

  /**
   For every cooldown below a second there is a run after which paging with one alert a
   page does not read every active alert exactly once, neither for the equipment nor for
   the whole fleet.
  */
  method ShortCooldownBreaksPaging(id: string, e: string, cooldown: real) returns (engine: AlertRuleEngine)
    requires cooldown < 1.0
    ensures fresh(engine) && engine.Valid() && |engine.rules| == 1 && engine.rules[0].cooldown == cooldown
    ensures |engine.trace| == 3
    ensures !ReadsAll(Details(Live(BySeverity(Asked(engine.trace, None), None))), 1)
    ensures !ReadsAll(Details(Live(BySeverity(Asked(engine.trace, Some(e)), None))), 1)
  {
    var rule, a, b;
    engine, rule, a, b := FireTwice(id, e, cooldown);
    var c := FireOnce(engine, rule, e, 2.0);
    ThreeListed(engine.trace, a, b, c, e);
  }

  lemma {:induction false} ThreeListed(trace: seq<Alert>, a: Alert, b: Alert, c: Alert, e: string)
    requires trace == [a, b, c] && a.equipment == b.equipment == c.equipment == e && a.alertId == b.alertId
    requires a.status == b.status == c.status == Triggered
    ensures !ReadsAll(Details(Live(BySeverity(Asked(trace, None), None))), 1)
    ensures !ReadsAll(Details(Live(BySeverity(Asked(trace, Some(e)), None))), 1)
  {
    SingleEquipmentListing(trace, e);
    OnlyEquipment(trace, e);
    assert Asked(trace, None) == trace && Asked(trace, Some(e)) == trace;
    RepeatedCursorFails(trace, 1, 2, 0, 2);
  }

  /**
   For every two rule identifiers of which one extends the other there is a run, whatever
   the cooldown, after which paging through the fleet in pages of one, two or four alerts
   does not read every active alert exactly once.
  */
  method ExtensionBreaksPaging(long: string, short: string, e: string, g: string, cooldown: real)
    returns (engine: AlertRuleEngine)
    requires Extends(long, short) && g != e && g != Rest(long, short, e)
    ensures fresh(engine) && engine.Valid() && |engine.rules| == 2 && |engine.trace| == 6
    ensures engine.rules[0].ruleId == long && engine.rules[1].ruleId == short
    ensures engine.rules[0].cooldown == engine.rules[1].cooldown == cooldown
    ensures forall limit <- {1, 2, 4} :: !ReadsAll(Details(Live(BySeverity(Asked(engine.trace, None), None))), limit)
  {
    var r, s, first, second;
    engine, r, s, first, second := FireFour(long, short, e, cooldown);
    var x, y := FireBoth(engine, r, s, g, 0.0);
    SixListed(engine.trace, first, second, [x, y], e, Rest(long, short, e), g);
  }

  lemma {:induction false} SixListed(trace: seq<Alert>, s: seq<Alert>, t: seq<Alert>, u: seq<Alert>,
                                     e: string, f: string, g: string)
    requires trace == (s + t) + u && |s| == |t| == |u| == 2 && e != f && g != e && g != f
    requires (forall a <- s :: a.equipment == e) && (forall a <- t :: a.equipment == f)
    requires forall a <- u :: a.equipment == g
    requires s[0].alertId == t[1].alertId && forall a <- trace :: a.status == Triggered
    ensures forall limit <- {1, 2, 4} :: !ReadsAll(Details(Live(BySeverity(Asked(trace, None), None))), limit)
  {
    ThreePairsListing(s, t, u, e, f, g);
    assert Asked(trace, None) == trace;
    forall limit | limit in {1, 2, 4} ensures !ReadsAll(Details(Live(BySeverity(trace, None))), limit) {
      RepeatedCursorFails(trace, limit, 4 / limit, 0, 4);
    }
  }

  lemma {:induction false} ThreePairsListing(s: seq<Alert>, t: seq<Alert>, u: seq<Alert>,
                                             e: string, f: string, g: string)
    requires s != [] && t != [] && u != [] && e != f && g != e && g != f
    requires (forall a <- s :: a.equipment == e) && (forall a <- t :: a.equipment == f)
    requires forall a <- u :: a.equipment == g
    ensures Whole((s + t) + u) == (s + t) + u
  {
    NewEquipmentListedLast([], s, e);
    assert [] + s == s;
    NewEquipmentListedLast(s, t, f);
    NewEquipmentListedLast(s + t, u, g);
  }
}
