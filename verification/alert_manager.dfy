/** The alert manager: maintenance mode, per-equipment aggregation and notification. */
module AlertManagement {
  import opened Common
  import opened Alerts
  import opened AlertRules
  import opened AlertEngine
  import opened Spacing

  // ------------------------------------------------------- stable sort by severity

  /** The sort key `severity_order`. */
  function Weight(s: Severity): nat {
    match s case Critical => 4 case Warning => 3 case Info => 2
  }

  /** `sort(key=severity, reverse=True)`: Python's sort keeps the order of equal keys. */
  function SortBySeverity(s: seq<Alert>): seq<Alert> {
    BySeverity(s, Some(Critical)) + BySeverity(s, Some(Warning)) + BySeverity(s, Some(Info))
  }

  ghost predicate Descending(s: seq<Alert>) {
    forall i, j :: 0 <= i < j < |s| ==> Weight(s[i].severity) >= Weight(s[j].severity)
  }

  lemma {:induction false} BySeverityMembers(s: seq<Alert>, severity: Severity)
    ensures forall a <- BySeverity(s, Some(severity)) :: a in s && a.severity == severity
  {
    if s != [] { BySeverityMembers(s[..|s| - 1], severity); }
  }

  lemma {:induction false} BySeverityConcat(s: seq<Alert>, t: seq<Alert>, severity: Severity)
    ensures BySeverity(s + t, Some(severity)) == BySeverity(s, Some(severity)) + BySeverity(t, Some(severity))
  {
    if t == [] {
      assert s + t == s;
    } else {
      assert (s + t)[..|s + t| - 1] == s + t[..|t| - 1];
      BySeverityConcat(s, t[..|t| - 1], severity);
    }
  }

  lemma {:induction false} UniformSeverity(t: seq<Alert>, severity: Severity, other: Severity)
    requires forall k :: 0 <= k < |t| ==> t[k].severity == severity
    ensures BySeverity(t, Some(other)) == if severity == other then t else []
  {
    if t != [] {
      UniformSeverity(t[..|t| - 1], severity, other);
      assert t[..|t| - 1] + [t[|t| - 1]] == t;
    }
  }

  lemma {:induction false} AbsentSeverity(t: seq<Alert>, severity: Severity)
    requires forall k :: 0 <= k < |t| ==> t[k].severity != severity
    ensures BySeverity(t, Some(severity)) == []
  {
    if t != [] { AbsentSeverity(t[..|t| - 1], severity); }
  }

  lemma UniformBucket(s: seq<Alert>, severity: Severity)
    ensures forall k :: 0 <= k < |BySeverity(s, Some(severity))| ==>
              BySeverity(s, Some(severity))[k].severity == severity
  {
    BySeverityMembers(s, severity);
  }

  lemma SeparateBuckets(c: seq<Alert>, w: seq<Alert>, i: seq<Alert>, severity: Severity)
    requires forall k :: 0 <= k < |c| ==> c[k].severity == Critical
    requires forall k :: 0 <= k < |w| ==> w[k].severity == Warning
    requires forall k :: 0 <= k < |i| ==> i[k].severity == Info
    ensures BySeverity(c + w + i, Some(severity)) == match severity case Critical => c case Warning => w case Info => i
  {
    BySeverityConcat(c + w, i, severity);
    BySeverityConcat(c, w, severity);
    UniformSeverity(c, Critical, severity);
    UniformSeverity(w, Warning, severity);
    UniformSeverity(i, Info, severity);
    EmptySides(c);
    EmptySides(w);
    EmptySides(i);
  }

  lemma EmptySides(s: seq<Alert>)
    ensures [] + s == s == s + []
  {
  }

  /** The sorted batch keeps, for each severity, the arrival order: nothing is lost, and equal keys stay in order. */
  lemma SortIsStable(s: seq<Alert>, severity: Severity)
    ensures BySeverity(SortBySeverity(s), Some(severity)) == BySeverity(s, Some(severity))
  {
    UniformBucket(s, Critical);
    UniformBucket(s, Warning);
    UniformBucket(s, Info);
    SeparateBuckets(BySeverity(s, Some(Critical)), BySeverity(s, Some(Warning)), BySeverity(s, Some(Info)), severity);
  }

  /** The sorted batch descends: before a critical alert come only critical ones, after information only information. */
  lemma SortDescends(s: seq<Alert>)
    ensures Descending(SortBySeverity(s))
    ensures var t := SortBySeverity(s);
            forall i, j :: 0 <= i < j < |t| ==>
              (t[j].severity == Critical ==> t[i].severity == Critical) &&
              (t[i].severity == Info ==> t[j].severity == Info)
  {
    UniformBucket(s, Critical);
    UniformBucket(s, Warning);
    UniformBucket(s, Info);
  }

  lemma AppendToBuckets(c: seq<Alert>, w: seq<Alert>, i: seq<Alert>, last: Alert)
    requires last.severity != Info ==> i == []
    requires last.severity == Critical ==> w == []
    ensures (if last.severity == Critical then c + [last] else c) + (if last.severity == Warning then w + [last] else w)
            + (if last.severity == Info then i + [last] else i) == c + w + i + [last]
  {
  }

  lemma BySeveritySnoc(s: seq<Alert>, last: Alert, severity: Severity)
    ensures BySeverity(s + [last], Some(severity)) ==
            if last.severity == severity then BySeverity(s, Some(severity)) + [last] else BySeverity(s, Some(severity))
  {
    assert (s + [last])[..|s|] == s;
  }

  /** An alert no more severe than the others is sorted behind them. */
  lemma {:induction false} SortSnoc(before: seq<Alert>, last: Alert)
    requires forall a <- before :: Weight(a.severity) >= Weight(last.severity)
    ensures SortBySeverity(before + [last]) == SortBySeverity(before) + [last]
  {
    if last.severity != Info { AbsentSeverity(before, Info); }
    if last.severity == Critical { AbsentSeverity(before, Warning); }
    AppendToBuckets(BySeverity(before, Some(Critical)), BySeverity(before, Some(Warning)),
                    BySeverity(before, Some(Info)), last);
    BySeveritySnoc(before, last, Critical);
    BySeveritySnoc(before, last, Warning);
    BySeveritySnoc(before, last, Info);
  }

  /** A descending sequence is the concatenation of its severities. */
  lemma {:induction false} DescendingIsSorted(t: seq<Alert>)
    requires Descending(t)
    ensures SortBySeverity(t) == t
  {
    if t != [] {
      var before, last := t[..|t| - 1], t[|t| - 1];
      DescendingIsSorted(before);
      assert before + [last] == t;
      SortSnoc(before, last);
    }
  }

  /** It is the only such sequence: any stable descending rearrangement is this one. */
  lemma StableSortIsUnique(s: seq<Alert>, t: seq<Alert>)
    requires Descending(t)
    requires forall v: Severity :: BySeverity(t, Some(v)) == BySeverity(s, Some(v))
    ensures t == SortBySeverity(s)
  {
    DescendingIsSorted(t);
  }

  /** `k` is the earliest position of the highest severity. */
  ghost predicate EarliestHighest(s: seq<Alert>, k: nat) {
    k < |s| &&
    (forall j :: 0 <= j < |s| ==> Weight(s[j].severity) <= Weight(s[k].severity)) &&
    forall j :: 0 <= j < k ==> Weight(s[j].severity) < Weight(s[k].severity)
  }

  /** Critical alerts come before warnings, and both before information. */
  lemma HighestMeans(s: seq<Alert>, k: nat)
    requires k < |s|
    ensures EarliestHighest(s, k) <==>
              (s[k].severity != Critical ==> forall a <- s :: a.severity != Critical) &&
              (s[k].severity == Info ==> forall a <- s :: a.severity == Info) &&
              forall j :: 0 <= j < k ==> s[j].severity != s[k].severity
  {
    assert forall j :: 0 <= j < |s| ==> s[j] in s;
  }

  lemma {:induction false} FirstOfSeverity(s: seq<Alert>, severity: Severity) returns (k: nat)
    requires BySeverity(s, Some(severity)) != []
    ensures k < |s| && s[k] == BySeverity(s, Some(severity))[0] && s[k].severity == severity
    ensures forall j :: 0 <= j < k ==> s[j].severity != severity
  {
    var before := s[..|s| - 1];
    if BySeverity(before, Some(severity)) == [] {
      k := |s| - 1;
      NoneOfSeverity(before, severity);
    } else {
      k := FirstOfSeverity(before, severity);
    }
  }

  lemma {:induction false} NoneOfSeverity(s: seq<Alert>, severity: Severity)
    requires BySeverity(s, Some(severity)) == []
    ensures forall j :: 0 <= j < |s| ==> s[j].severity != severity
  {
    if s != [] { NoneOfSeverity(s[..|s| - 1], severity); }
  }

  /** The head of the sorted batch is the earliest arrived among those of highest severity. */
  lemma RepresentativeIsEarliestHighest(s: seq<Alert>) returns (k: nat)
    requires s != []
    ensures EarliestHighest(s, k) && SortBySeverity(s) != [] && SortBySeverity(s)[0] == s[k]
  {
    if BySeverity(s, Some(Critical)) != [] {
      k := FirstOfSeverity(s, Critical);
    } else {
      NoneOfSeverity(s, Critical);
      if BySeverity(s, Some(Warning)) != [] {
        k := FirstOfSeverity(s, Warning);
      } else {
        NoneOfSeverity(s, Warning);
        assert s[0].severity == Info;
        if BySeverity(s, Some(Info)) == [] { NoneOfSeverity(s, Info); }
        k := FirstOfSeverity(s, Info);
      }
    }
  }

  // ------------------------------------------------------------- aggregation

  /** One alert handed to every configured channel, with the text it carried and the time. */
  datatype Notice = Notice(alert: Alert, message: seq<Part>, at: Instant)

  /** One emptying of a buffer, by the expiry of its window or on shutdown; `pick` is the position sent. */
  datatype Flush = Flush(at: Instant, batch: seq<Alert>, byWindow: bool, pick: nat, sent: Notice)

  /**
   A flush sends one alert: the earliest among those of highest severity, labelled with
   the size of the batch when there are several. A window only expires on a later
   arrival, so it never flushes a single alert.
  */
  ghost predicate FlushValid(f: Flush) {
    EarliestHighest(f.batch, f.pick) && f.sent.alert == f.batch[f.pick] && f.sent.at == f.at &&
    (f.byWindow ==> |f.batch| >= 2) &&
    (|f.batch| >= 2 ==> f.sent.message != [] && f.sent.message[0] == Aggregated(|f.batch|))
  }

  /**
   The flushes of one equipment up to `clock`: in time order, a window flush a whole
   window after the flush before it, and anything else only on shutdown.
  */
  ghost predicate LogValid(log: seq<Flush>, window: real, clock: Instant, shutDown: bool) {
    log == [] ||
    var before, f := log[..|log| - 1], log[|log| - 1];
    LogValid(before, window, f.at, shutDown) && FlushValid(f) && f.at <= clock && (shutDown || f.byWindow) &&
    (f.byWindow && before != [] ==> f.at - before[|before| - 1].at >= window)
  }

  lemma {:induction false} LaterLog(log: seq<Flush>, window: real, clock: Instant, later: Instant, shutDown: bool)
    requires LogValid(log, window, clock, shutDown) && clock <= later
    ensures LogValid(log, window, later, shutDown) && LogValid(log, window, later, true)
  {
    if log != [] {
      var f := log[|log| - 1];
      LaterLog(log[..|log| - 1], window, f.at, f.at, shutDown);
    }
  }

  /** All alerts flushed so far, in order. */
  function Batches(log: seq<Flush>): seq<Alert> {
    if log == [] then [] else Batches(log[..|log| - 1]) + log[|log| - 1].batch
  }

  ghost function LogOf(flushes: map<string, seq<Flush>>, e: string): seq<Flush> {
    if e in flushes then flushes[e] else []
  }

  function BufferOf(buffer: map<string, seq<Alert>>, e: string): seq<Alert> {
    if e in buffer then buffer[e] else []
  }

  /** The alerts of an equipment that aggregation has taken in: its flushed batches, then its buffer. */
  ghost function TakenIn(buffer: map<string, seq<Alert>>, flushes: map<string, seq<Flush>>, e: string): seq<Alert> {
    Batches(LogOf(flushes, e)) + BufferOf(buffer, e)
  }

  /** For every equipment that is every alert ever triggered, in arrival order. */
  ghost predicate AllTakenIn(trace: seq<Alert>, buffer: map<string, seq<Alert>>, flushes: map<string, seq<Flush>>) {
    forall e {:trigger TakenIn(buffer, flushes, e)} :: ForEquipment(trace, e) == TakenIn(buffer, flushes, e)
  }

  lemma TakenInAfterFlush(trace: seq<Alert>, buffer: map<string, seq<Alert>>, flushes: map<string, seq<Flush>>,
                          e: string, f: Flush)
    requires AllTakenIn(trace, buffer, flushes) && e in buffer && f.batch == buffer[e]
    ensures AllTakenIn(trace, buffer - {e}, flushes[e := LogOf(flushes, e) + [f]])
  {
    var log := LogOf(flushes, e);
    var flushes' := flushes[e := log + [f]];
    assert (log + [f])[..|log|] == log;
    forall k ensures TakenIn(buffer - {e}, flushes', k) == TakenIn(buffer, flushes, k) {
      if k == e {
        assert Batches(log + [f]) == Batches(log) + buffer[e];
      }
    }
  }

  lemma TakenInAfterBuffering(trace: seq<Alert>, buffer: map<string, seq<Alert>>, flushes: map<string, seq<Flush>>,
                              e: string, alerts: seq<Alert>)
    requires AllTakenIn(trace, buffer, flushes)
    requires forall k :: 0 <= k < |alerts| ==> alerts[k].equipment == e
    ensures AllTakenIn(trace + alerts, buffer[e := BufferOf(buffer, e) + alerts], flushes)
  {
    var buffer' := buffer[e := BufferOf(buffer, e) + alerts];
    forall k ensures ForEquipment(trace + alerts, k) == TakenIn(buffer', flushes, k) {
      ForEquipmentAppend(trace, alerts, e, k);
      assert ForEquipment(trace, k) == TakenIn(buffer, flushes, k);
      if k == e {
        ConcatAssociates(Batches(LogOf(flushes, e)), BufferOf(buffer, e), alerts);
      }
    }
  }

  /** An arrival, with the flush it may cause. */
  lemma TakenInAfterArrival(trace: seq<Alert>, buffer: map<string, seq<Alert>>, flushes: map<string, seq<Flush>>,
                            e: string, alerts: seq<Alert>, f: Option<Flush>)
    requires AllTakenIn(trace, buffer, flushes)
    requires forall k :: 0 <= k < |alerts| ==> alerts[k].equipment == e
    requires f.Some? ==> f.value.batch == BufferOf(buffer, e) + alerts
    ensures f.None? ==> AllTakenIn(trace + alerts, buffer[e := BufferOf(buffer, e) + alerts], flushes)
    ensures f.Some? ==> AllTakenIn(trace + alerts, buffer - {e}, flushes[e := LogOf(flushes, e) + [f.value]])
  {
    TakenInAfterBuffering(trace, buffer, flushes, e, alerts);
    if f.Some? {
      var full := buffer[e := BufferOf(buffer, e) + alerts];
      TakenInAfterFlush(trace + alerts, full, flushes, e, f.value);
      assert full - {e} == buffer - {e};
    }
  }

  // ------------------------------------------------------------ notifications

  /** The notices about one equipment, in order. */
  function NoticesFor(sent: seq<Notice>, e: string): seq<Notice> {
    if sent == [] then [] else
    var before, last := NoticesFor(sent[..|sent| - 1], e), sent[|sent| - 1];
    if last.alert.equipment == e then before + [last] else before
  }

  /** What the flushes on record sent. */
  function SentBy(log: seq<Flush>): seq<Notice> {
    if log == [] then [] else SentBy(log[..|log| - 1]) + [log[|log| - 1].sent]
  }

  /** While aggregating, exactly one notice goes out per flush, and nothing else does. */
  ghost predicate AllAccounted(sent: seq<Notice>, flushes: map<string, seq<Flush>>) {
    forall e {:trigger NoticesFor(sent, e)} :: NoticesFor(sent, e) == SentBy(LogOf(flushes, e))
  }

  lemma BatchOfEquipment(trace: seq<Alert>, buffer: map<string, seq<Alert>>, flushes: map<string, seq<Flush>>,
                         e: string)
    requires AllTakenIn(trace, buffer, flushes)
    ensures forall a <- BufferOf(buffer, e) :: a.equipment == e
  {
    ForEquipmentMembers(trace, e);
    assert ForEquipment(trace, e) == TakenIn(buffer, flushes, e);
  }

  lemma AccountedAfterFlush(sent: seq<Notice>, flushes: map<string, seq<Flush>>, e: string, f: Flush)
    requires AllAccounted(sent, flushes) && f.sent.alert.equipment == e
    ensures AllAccounted(sent + [f.sent], flushes[e := LogOf(flushes, e) + [f]])
  {
    var log := LogOf(flushes, e);
    var flushes' := flushes[e := log + [f]];
    assert (sent + [f.sent])[..|sent|] == sent && (log + [f])[..|log|] == log;
    forall k ensures NoticesFor(sent + [f.sent], k) == SentBy(LogOf(flushes', k)) {
      assert NoticesFor(sent, k) == SentBy(LogOf(flushes, k));
    }
  }

  /** The notice of a flush is about the equipment whose alerts it empties. */
  lemma AccountedAfterArrival(trace: seq<Alert>, buffer: map<string, seq<Alert>>, flushes: map<string, seq<Flush>>,
                              sent: seq<Notice>, e: string, alerts: seq<Alert>, f: Flush)
    requires AllTakenIn(trace, buffer, flushes) && AllAccounted(sent, flushes) && FlushValid(f)
    requires forall k :: 0 <= k < |alerts| ==> alerts[k].equipment == e
    requires f.batch == BufferOf(buffer, e) + alerts
    ensures AllAccounted(sent + [f.sent], flushes[e := LogOf(flushes, e) + [f]])
  {
    BatchOfEquipment(trace, buffer, flushes, e);
    var own := BufferOf(buffer, e);
    assert f.pick < |own| ==> f.batch[f.pick] == own[f.pick] && own[f.pick] in own;
    assert f.sent.alert.equipment == e;
    AccountedAfterFlush(sent, flushes, e, f);
  }

  lemma WithoutUpdated(buffer: map<string, seq<Alert>>, e: string, batch: seq<Alert>)
    ensures buffer[e := batch] - {e} == buffer - {e}
  {
  }

  ghost predicate AllLogsValid(flushes: map<string, seq<Flush>>, window: real, clock: Instant, shutDown: bool) {
    forall e <- flushes :: LogValid(flushes[e], window, clock, shutDown)
  }

  /** Every open window was opened no earlier than the last flush of its equipment. */
  ghost predicate OpenedSince(timestamps: map<string, Instant>, flushes: map<string, seq<Flush>>, window: real,
                              shutDown: bool)
  {
    forall e <- timestamps :: LogValid(LogOf(flushes, e), window, timestamps[e], shutDown)
  }

  lemma AllLogsAfterFlush(flushes: map<string, seq<Flush>>, window: real, clock: Instant, shutDown: bool,
                          e: string, log: seq<Flush>)
    requires AllLogsValid(flushes, window, clock, shutDown) && LogValid(log, window, clock, shutDown)
    ensures AllLogsValid(flushes[e := log], window, clock, shutDown)
  {
  }

  lemma OpenedAfterFlush(timestamps: map<string, Instant>, flushes: map<string, seq<Flush>>, window: real,
                         shutDown: bool, e: string, log: seq<Flush>)
    requires OpenedSince(timestamps, flushes, window, shutDown)
    ensures OpenedSince(timestamps - {e}, flushes[e := log], window, shutDown)
  {
    forall k | k in timestamps - {e}
      ensures LogValid(LogOf(flushes[e := log], k), window, timestamps[k], shutDown)
    {
      assert LogOf(flushes[e := log], k) == LogOf(flushes, k);
    }
  }

  /**
   Buffers and timestamps have the same keys, no buffer is empty, and a timestamp is not
   older than the last flush of its equipment.
  */
  ghost predicate WindowsValid(buffer: map<string, seq<Alert>>, timestamps: map<string, Instant>,
                               flushes: map<string, seq<Flush>>, window: real, clock: Instant, shutDown: bool)
  {
    buffer.Keys == timestamps.Keys &&
    (forall e <- buffer :: buffer[e] != [] && timestamps[e] <= clock) &&
    OpenedSince(timestamps, flushes, window, shutDown) && AllLogsValid(flushes, window, clock, shutDown)
  }

  /** Popping an equipment and adding a flush to its log. */
  lemma WindowsAfterFlush(buffer: map<string, seq<Alert>>, timestamps: map<string, Instant>,
                          flushes: map<string, seq<Flush>>, window: real, clock: Instant, shutDown: bool,
                          e: string, f: Flush)
    requires WindowsValid(buffer, timestamps, flushes, window, clock, shutDown)
    requires e in buffer && FlushValid(f) && f.at == clock && (shutDown || f.byWindow)
    requires f.byWindow ==> clock - timestamps[e] >= window
    ensures WindowsValid(buffer - {e}, timestamps - {e}, flushes[e := LogOf(flushes, e) + [f]], window, clock, shutDown)
  {
    var log := LogOf(flushes, e);
    LogGrows(log, f, window, timestamps[e], shutDown);
    AllLogsAfterFlush(flushes, window, clock, shutDown, e, log + [f]);
    OpenedAfterFlush(timestamps, flushes, window, shutDown, e, log + [f]);
  }

  /** One alert per recording rule, in rule order, all for the equipment of the prediction. */
  ghost predicate FromRules(alerts: seq<Alert>, recording: seq<AlertRule>, data: Prediction) {
    |alerts| == |recording| &&
    forall k :: 0 <= k < |alerts| ==>
      alerts[k].ruleId == recording[k].ruleId && alerts[k].severity == recording[k].severity &&
      Some(alerts[k].equipment) == data.equipment
  }

  lemma WindowsLater(buffer: map<string, seq<Alert>>, timestamps: map<string, Instant>,
                     flushes: map<string, seq<Flush>>,
                     window: real, clock: Instant, later: Instant, shutDown: bool, shutDownNow: bool)
    requires WindowsValid(buffer, timestamps, flushes, window, clock, shutDown)
    requires clock <= later && (shutDown ==> shutDownNow)
    ensures WindowsValid(buffer, timestamps, flushes, window, later, shutDownNow)
  {
    forall e | e in timestamps ensures LogValid(LogOf(flushes, e), window, timestamps[e], shutDownNow) {
      LaterLog(LogOf(flushes, e), window, timestamps[e], timestamps[e], shutDown);
    }
    forall e | e in flushes ensures LogValid(flushes[e], window, later, shutDownNow) {
      LaterLog(flushes[e], window, clock, later, shutDown);
    }
  }

  class AlertManager {
    const engine: AlertRuleEngine
    const aggEnabled: bool
    const aggWindow: real
    var alertCount: nat
    var aggBuffer: map<string, seq<Alert>>
    var aggTimestamps: map<string, Instant>
    var maintenance: set<string>

    /** Every flush so far, per equipment. */
    ghost var flushes: map<string, seq<Flush>>
    /** Everything handed to the channels, in order. */
    ghost var dispatched: seq<Notice>
    ghost var shutDown: bool
    ghost var clock: Instant

    constructor (engine: AlertRuleEngine, aggEnabled: bool, aggWindow: real)
      requires engine.Valid() && engine.trace == []
      ensures Valid() && this.engine == engine && flushes == map[] && !shutDown
    {
      this.engine, this.aggEnabled, this.aggWindow := engine, aggEnabled, aggWindow;
      alertCount, aggBuffer, aggTimestamps, maintenance := 0, map[], map[], {};
      flushes, dispatched, shutDown, clock := map[], [], false, engine.clock;
    }

    ghost predicate Structure()
      reads this
    {
      WindowsValid(aggBuffer, aggTimestamps, flushes, aggWindow, clock, shutDown)
    }

    /**
     Aggregating: every alert ever triggered was flushed once or is buffered, and every flush
     sent its one notice. Otherwise: every alert was dispatched.
    */
    ghost predicate Conserved(trace: seq<Alert>)
      reads this
    {
      if aggEnabled then AllTakenIn(trace, aggBuffer, flushes) && AllAccounted(dispatched, flushes)
      else aggBuffer == map[] && flushes == map[] && AlertsOf(dispatched) == trace
    }

    ghost predicate Valid()
      reads this, engine, engine.rules, (set a | a in engine.trace)`status
    {
      engine.Valid() && engine.clock <= clock && alertCount == |engine.trace| && Structure() && Conserved(engine.trace)
    }

    /** `_send_notifications`: each alert goes to every channel; a channel that fails is skipped. */
    ghost method SendNotifications(alerts: seq<Alert>)
      modifies this`dispatched
      ensures dispatched == old(dispatched) + Notices(alerts, clock)
    {
      dispatched := dispatched + Notices(alerts, clock);
    }

    /** The flush a buffer is about to undergo. */
    ghost predicate Flushed(f: Flush, batch: seq<Alert>, now: Instant, byWindow: bool) {
      FlushValid(f) && f.at == now && f.batch == batch && f.byWindow == byWindow
    }

    /** The sending half of `_flush_buffer`. */
    method SendBatch(buffered: seq<Alert>) returns (ghost pick: nat)
      requires buffered != []
      modifies this`dispatched, (set a | a in buffered)`message
      ensures EarliestHighest(buffered, pick)
      ensures dispatched == old(dispatched) + [Notice(buffered[pick], buffered[pick].message, clock)]
      ensures |buffered| >= 2 ==> buffered[pick].message == [Aggregated(|buffered|)] + old(buffered[pick].message)
      ensures forall a <- buffered :: |buffered| == 1 || a != buffered[pick] ==> a.message == old(a.message)
    {
      pick := RepresentativeIsEarliestHighest(buffered);
      if |buffered| == 1 {
        SendNotifications(buffered);
        OneNotice(buffered[0], clock);
      } else {
        var sorted := SortBySeverity(buffered);
        var representative := sorted[0];
        representative.message := [Aggregated(|buffered|)] + representative.message;
        SendNotifications([representative]);
        OneNotice(representative, clock);
      }
    }

    /** The same, with the flush it amounts to. */
    method SendFlush(buffered: seq<Alert>, ghost byWindow: bool) returns (ghost f: Flush)
      requires buffered != [] && (byWindow ==> |buffered| >= 2)
      modifies this`dispatched, (set a | a in buffered)`message
      ensures Flushed(f, buffered, clock, byWindow)
      ensures dispatched == old(dispatched) + [f.sent]
    {
      ghost var pick := SendBatch(buffered);
      f := Flush(clock, buffered, byWindow, pick, Notice(buffered[pick], buffered[pick].message, clock));
    }

    /** The popping half: buffer and timestamp go, and the flush goes on record. */
    method Pop(e: string, ghost flush: Flush)
      requires Structure() && e in aggBuffer && Flushed(flush, aggBuffer[e], clock, flush.byWindow)
      requires if flush.byWindow then clock - aggTimestamps[e] >= aggWindow else shutDown
      modifies this`aggBuffer, this`aggTimestamps, this`flushes
      ensures Structure()
      ensures aggBuffer == old(aggBuffer) - {e} && aggTimestamps == old(aggTimestamps) - {e}
      ensures flushes == old(flushes)[e := old(LogOf(flushes, e)) + [flush]]
    {
      ghost var logs := flushes[e := LogOf(flushes, e) + [flush]];
      WindowsAfterFlush(aggBuffer, aggTimestamps, flushes, aggWindow, clock, shutDown, e, flush);
      aggBuffer, aggTimestamps, flushes := aggBuffer - {e}, aggTimestamps - {e}, logs;
    }

    /** `_flush_buffer`. */
    method FlushBuffer(e: string, now: Instant, ghost byWindow: bool) returns (ghost f: Option<Flush>)
      requires Structure() && now == clock
      requires byWindow ==> e in aggBuffer && |aggBuffer[e]| >= 2 && e in aggTimestamps &&
                            now - aggTimestamps[e] >= aggWindow
      requires !byWindow ==> shutDown
      modifies this`aggBuffer, this`aggTimestamps, this`flushes, this`dispatched
      modifies (set a | a in BufferOf(aggBuffer, e))`message
      ensures Structure()
      ensures aggBuffer == old(aggBuffer) - {e} && aggTimestamps == old(aggTimestamps) - {e}
      ensures f.Some? <==> e in old(aggBuffer)
      ensures f.Some? ==> Flushed(f.value, old(aggBuffer[e]), now, byWindow)
      ensures flushes == if f.Some? then old(flushes)[e := old(LogOf(flushes, e)) + [f.value]] else old(flushes)
      ensures dispatched == if f.Some? then old(dispatched) + [f.value.sent] else old(dispatched)
    {
      f := None;
      if e in aggBuffer {
        var buffered := aggBuffer[e];
        ghost var flush := SendFlush(buffered, byWindow);
        Pop(e, flush);
        f := Some(flush);
      } else {
        assert aggBuffer - {e} == aggBuffer && aggTimestamps - {e} == aggTimestamps;
      }
    }

    /** `_buffer_alerts`: the first arrival opens a window, an arrival after its expiry flushes. */
    method BufferAlerts(e: string, alerts: seq<Alert>, now: Instant) returns (ghost f: Option<Flush>)
      requires Structure() && now == clock && alerts != []
      modifies this`aggBuffer, this`aggTimestamps, this`flushes, this`dispatched
      modifies (set a | a in BufferOf(aggBuffer, e) + alerts)`message
      ensures Structure()
      ensures f.Some? <==> e in old(aggTimestamps) && now - old(aggTimestamps)[e] >= aggWindow
      ensures f.Some? ==> Flushed(f.value, old(BufferOf(aggBuffer, e)) + alerts, now, true)
      ensures aggBuffer == if f.Some? then old(aggBuffer) - {e}
                           else old(aggBuffer)[e := old(BufferOf(aggBuffer, e)) + alerts]
      ensures aggTimestamps == if f.Some? then old(aggTimestamps) - {e}
                               else if e in old(aggTimestamps) then old(aggTimestamps)
                               else old(aggTimestamps)[e := now]
      ensures flushes == if f.Some? then old(flushes)[e := old(LogOf(flushes, e)) + [f.value]] else old(flushes)
      ensures dispatched == if f.Some? then old(dispatched) + [f.value.sent] else old(dispatched)
    {
      f := None;
      WithoutUpdated(aggBuffer, e, BufferOf(aggBuffer, e) + alerts);
      aggBuffer := aggBuffer[e := BufferOf(aggBuffer, e) + alerts];
      if e !in aggTimestamps {
        aggTimestamps := aggTimestamps[e := now];
        return;
      }
      var elapsed := now - aggTimestamps[e];
      if elapsed >= aggWindow {
        f := FlushBuffer(e, now, true);
      }
    }

    /** The new alerts are buffered, or sent at once when aggregation is off. */
    method TakeIn(e: string, triggered: seq<Alert>, now: Instant, ghost trace: seq<Alert>)
      requires Structure() && Conserved(trace) && now == clock && triggered != [] && engine.Valid()
      requires forall k :: 0 <= k < |triggered| ==> triggered[k].equipment == e
      modifies this`aggBuffer, this`aggTimestamps, this`flushes, this`dispatched, this`alertCount
      modifies (set a | a in BufferOf(aggBuffer, e) + triggered)`message
      ensures Structure() && Conserved(trace + triggered) && engine.Valid()
      ensures alertCount == old(alertCount) + |triggered|
    {
      if aggEnabled {
        Aggregate(e, triggered, now, trace);
      } else {
        SendEach(triggered, trace);
      }
      alertCount := alertCount + |triggered|;
    }

    method SendEach(alerts: seq<Alert>, ghost trace: seq<Alert>)
      requires Structure() && Conserved(trace) && !aggEnabled && engine.Valid()
      modifies this`dispatched
      ensures Structure() && Conserved(trace + alerts) && engine.Valid()
      ensures AlertsOf(dispatched) == AlertsOf(old(dispatched)) + alerts
    {
      SendNotifications(alerts);
      AlertsOfNotices(old(dispatched), alerts, clock);
    }

    method Aggregate(e: string, alerts: seq<Alert>, now: Instant, ghost trace: seq<Alert>)
      requires Structure() && Conserved(trace) && aggEnabled && now == clock && alerts != [] && engine.Valid()
      requires forall k :: 0 <= k < |alerts| ==> alerts[k].equipment == e
      modifies this`aggBuffer, this`aggTimestamps, this`flushes, this`dispatched
      modifies (set a | a in BufferOf(aggBuffer, e) + alerts)`message
      ensures Structure() && Conserved(trace + alerts) && engine.Valid()
    {
      Absorb(e, alerts, now, trace);
    }

    /** Buffering, with what it means for the books. */
    method Absorb(e: string, alerts: seq<Alert>, now: Instant, ghost trace: seq<Alert>)
      requires Structure() && Conserved(trace) && aggEnabled && now == clock && alerts != []
      requires forall k :: 0 <= k < |alerts| ==> alerts[k].equipment == e
      modifies this`aggBuffer, this`aggTimestamps, this`flushes, this`dispatched
      modifies (set a | a in BufferOf(aggBuffer, e) + alerts)`message
      ensures Structure() && Conserved(trace + alerts)
    {
      ghost var buffer, log, sent := aggBuffer, flushes, dispatched;
      ghost var f := BufferAlerts(e, alerts, now);
      TakenInAfterArrival(trace, buffer, log, e, alerts, f);
      if f.Some? {
        AccountedAfterArrival(trace, buffer, log, sent, e, alerts, f.value);
      }
    }

    /**
     `process_prediction`: nothing at all while the equipment is in maintenance; otherwise
     the engine's alerts are taken in, and returned. `bufferedAt` is the second clock reading.
    */
    method ProcessPrediction(data: Prediction, now: Instant, bufferedAt: Instant) returns (triggered: seq<Alert>)
      requires Valid() && clock <= now <= bufferedAt
      modifies this, engine, engine.rules, engine.trace
      ensures Valid() && maintenance == old(maintenance) && shutDown == old(shutDown)
      ensures engine.trace == old(engine.trace) + triggered
      ensures if (if data.equipment.Some? then data.equipment.value else "") in maintenance then triggered == []
              else FromRules(triggered, old(Recording(engine.rules, engine.suppression, data, now)), data)
    {
      Tick(bufferedAt, false);
      var e := Key(data);
      if e in maintenance {
        return [];
      }
      triggered := EvaluateRules(data, now, bufferedAt);
    }

    /** The call of the rule engine. */
    method Trigger(data: Prediction, now: Instant) returns (triggered: seq<Alert>)
      requires engine.Valid() && engine.clock <= now
      modifies engine, engine.rules
      ensures engine.Valid() && engine.clock == now && engine.trace == old(engine.trace) + triggered
      ensures FromRules(triggered, old(Recording(engine.rules, engine.suppression, data, now)), data)
      ensures forall k :: 0 <= k < |triggered| ==> triggered[k].equipment == Key(data)
      ensures forall a <- triggered :: fresh(a)
    {
      ghost var recording := Recording(engine.rules, engine.suppression, data, now);
      triggered := engine.Evaluate(data, now);
      BuiltFromRules(triggered, recording, data, now);
    }

    /** The try block of `process_prediction`. */
    method EvaluateRules(data: Prediction, now: Instant, bufferedAt: Instant) returns (triggered: seq<Alert>)
      requires Valid() && engine.clock <= now <= clock == bufferedAt
      modifies this`aggBuffer, this`aggTimestamps, this`flushes, this`dispatched, this`alertCount
      modifies engine, engine.rules, engine.trace
      ensures Valid() && engine.trace == old(engine.trace) + triggered
      ensures FromRules(triggered, old(Recording(engine.rules, engine.suppression, data, now)), data)
    {
      ghost var trace := engine.trace;
      BufferedAlertsAreTraced(trace, aggBuffer, flushes, Key(data));
      triggered := Trigger(data, now);
      if triggered != [] {
        TakeIn(Key(data), triggered, bufferedAt, trace);
      } else {
        assert trace + triggered == trace;
      }
    }

    /** One turn of the loop in `flush_all_buffers`. */
    method FlushOne(e: string, now: Instant)
      requires Valid() && now == clock && shutDown && e in aggBuffer
      modifies this`aggBuffer, this`aggTimestamps, this`flushes, this`dispatched
      modifies (set a | a in BufferOf(aggBuffer, e))`message
      ensures Valid() && aggBuffer == old(aggBuffer) - {e}
    {
      ghost var buffer, log, sent := aggBuffer, flushes, dispatched;
      ghost var f := FlushBuffer(e, now, false);
      if aggEnabled {
        TakenInAfterFlush(engine.trace, buffer, log, e, f.value);
        assert buffer[e] == BufferOf(buffer, e) + [];
        AccountedAfterArrival(engine.trace, buffer, log, sent, e, [], f.value);
      }
    }

    /** `flush_all_buffers`, in whatever order: afterwards the flushed batches are everything ever triggered. */
    method FlushAllBuffers(now: Instant)
      requires Valid() && clock <= now
      modifies this, (set a | a in engine.trace)`message
      ensures Valid() && clock == now && shutDown && aggBuffer == map[] && maintenance == old(maintenance)
      ensures aggEnabled ==> forall e {:trigger LogOf(flushes, e)} ::
                Batches(LogOf(flushes, e)) == ForEquipment(engine.trace, e)
    {
      Tick(now, true);
      while aggBuffer != map[]
        invariant Valid() && clock == now && shutDown && maintenance == old(maintenance)
        decreases aggBuffer.Keys
      {
        var e :| e in aggBuffer;
        BufferedAlertsAreTraced(engine.trace, aggBuffer, flushes, e);
        FlushOne(e, now);
      }
      if aggEnabled {
        AllFlushed(engine.trace, flushes);
      }
    }

    method SetMaintenanceMode(e: string, enabled: bool)
      requires Valid()
      modifies this`maintenance
      ensures Valid() && maintenance == if enabled then old(maintenance) + {e} else old(maintenance) - {e}
    {
      maintenance := if enabled then maintenance + {e} else maintenance - {e};
    }

    /** Time passes, possibly into shutdown. */
    ghost method Tick(now: Instant, stopping: bool)
      requires Valid() && clock <= now
      modifies this`clock, this`shutDown
      ensures Valid() && clock == now && shutDown == (old(shutDown) || stopping)
    {
      WindowsLater(aggBuffer, aggTimestamps, flushes, aggWindow, clock, now, shutDown, shutDown || stopping);
      clock, shutDown := now, shutDown || stopping;
    }
  }

  lemma BuiltFromRules(alerts: seq<Alert>, recording: seq<AlertRule>, data: Prediction, now: Instant)
    requires AllBuilt(alerts, recording, data, now)
    ensures FromRules(alerts, recording, data)
    ensures forall k :: 0 <= k < |alerts| ==> alerts[k].equipment == Key(data)
  {
    forall k | 0 <= k < |alerts|
      ensures alerts[k].ruleId == recording[k].ruleId && alerts[k].severity == recording[k].severity
      ensures Some(alerts[k].equipment) == data.equipment
    {
      assert Built(alerts[k], recording[k], data, now);
    }
  }

  lemma AllFlushed(trace: seq<Alert>, flushes: map<string, seq<Flush>>)
    requires AllTakenIn(trace, map[], flushes)
    ensures forall e {:trigger LogOf(flushes, e)} :: Batches(LogOf(flushes, e)) == ForEquipment(trace, e)
  {
    forall e ensures Batches(LogOf(flushes, e)) == ForEquipment(trace, e) {
      assert TakenIn(map[], flushes, e) == Batches(LogOf(flushes, e)) + [] == Batches(LogOf(flushes, e));
    }
  }

  // ------------------------------------------------------ what the logs imply

  function FlushTimes(log: seq<Flush>): (ts: seq<real>)
    ensures |ts| == |log|
  {
    if log == [] then [] else FlushTimes(log[..|log| - 1]) + [log[|log| - 1].at]
  }

  /** Any two flushes of one equipment not followed up on shutdown are at least a window apart. */
  lemma {:induction false} FlushesSpaced(log: seq<Flush>, window: real, clock: Instant)
    requires LogValid(log, window, clock, false) && window >= 0.0
    ensures Spaced(FlushTimes(log), window)
    ensures forall k :: 0 <= k < |log| ==> FlushTimes(log)[k] <= clock && FlushTimes(log)[k] == log[k].at
  {
    if log != [] {
      var before, f := log[..|log| - 1], log[|log| - 1];
      FlushesSpaced(before, window, f.at);
      var ts := FlushTimes(before);
      if before != [] {
        FlushesSpaced(before, window, before[|before| - 1].at) by {
          EarlierLog(before, window, f.at, false);
        }
      }
      SpacedAppend(ts, f.at, window);
    }
  }

  lemma EarlierLog(log: seq<Flush>, window: real, clock: Instant, shutDown: bool)
    requires LogValid(log, window, clock, shutDown) && log != []
    ensures LogValid(log, window, log[|log| - 1].at, shutDown)
  {
  }

  function NoticeTimes(sent: seq<Notice>): (ts: seq<real>)
    ensures |ts| == |sent|
  {
    if sent == [] then [] else NoticeTimes(sent[..|sent| - 1]) + [sent[|sent| - 1].at]
  }

  lemma {:induction false} NoticeTimesAt(sent: seq<Notice>, k: nat)
    requires k < |sent|
    ensures NoticeTimes(sent)[k] == sent[k].at
  {
    if k < |sent| - 1 { NoticeTimesAt(sent[..|sent| - 1], k); }
  }

  lemma {:induction false} SentWhenFlushed(log: seq<Flush>, window: real, clock: Instant, shutDown: bool)
    requires LogValid(log, window, clock, shutDown)
    ensures |SentBy(log)| == |log| && NoticeTimes(SentBy(log)) == FlushTimes(log)
    ensures forall k :: 0 <= k < |log| ==> SentBy(log)[k] == log[k].sent
  {
    if log != [] {
      SentWhenFlushed(log[..|log| - 1], window, log[|log| - 1].at, shutDown);
    }
  }

  /** `sent` is what a flush of `batch` sends: its earliest alert of highest severity, with the size of the batch. */
  ghost predicate Represents(sent: Notice, batch: seq<Alert>) {
    (exists k: nat :: EarliestHighest(batch, k) && sent.alert == batch[k]) &&
    (|batch| >= 2 ==> sent.message != [] && sent.message[0] == Aggregated(|batch|))
  }

  /**
   While aggregating, the notices ever dispatched about one equipment are one per flush, in
   order, each for the alert that represents its batch, at the time of the flush.
  */
  lemma OneNoticePerFlush(manager: AlertManager, e: string)
    requires manager.Valid() && manager.aggEnabled
    ensures var notices, log := NoticesFor(manager.dispatched, e), LogOf(manager.flushes, e);
            |notices| == |log| && NoticeTimes(notices) == FlushTimes(log) &&
            forall k :: 0 <= k < |log| ==> Represents(notices[k], log[k].batch) && notices[k].at == log[k].at
  {
    var log := LogOf(manager.flushes, e);
    SentWhenFlushed(log, manager.aggWindow, manager.clock, manager.shutDown);
    EveryFlushValid(log, manager.aggWindow, manager.clock, manager.shutDown);
    assert NoticesFor(manager.dispatched, e) == SentBy(log);
    forall k | 0 <= k < |log| ensures Represents(SentBy(log)[k], log[k].batch) {
      assert EarliestHighest(log[k].batch, log[k].pick);
    }
  }

  /** Without a shutdown, one equipment has at most floor(length / window) + 1 notifications in any interval. */
  lemma NotificationRate(manager: AlertManager, e: string, from: real, length: real)
    requires manager.Valid() && manager.aggEnabled && !manager.shutDown && manager.aggWindow > 0.0 && length >= 0.0
    ensures |Within(NoticeTimes(NoticesFor(manager.dispatched, e)), from, from + length)|
            <= (length / manager.aggWindow).Floor + 1
  {
    var log := LogOf(manager.flushes, e);
    OneNoticePerFlush(manager, e);
    FlushesSpaced(log, manager.aggWindow, manager.clock);
    RateBound(FlushTimes(log), manager.aggWindow, from, length);
  }

  /** Every flush on record sent the earliest alert of highest severity, labelled with the size of its batch. */
  lemma {:induction false} EveryFlushValid(log: seq<Flush>, window: real, clock: Instant, shutDown: bool)
    requires LogValid(log, window, clock, shutDown)
    ensures forall k :: 0 <= k < |log| ==>
              FlushValid(log[k]) && (log[k].byWindow ==> |log[k].batch| >= 2) && (shutDown || log[k].byWindow)
  {
    if log != [] { EveryFlushValid(log[..|log| - 1], window, log[|log| - 1].at, shutDown); }
  }

  /** The equipment a prediction is about, as `get("equipment_id", "")` reads it. */
  function Key(data: Prediction): string {
    if data.equipment.Some? then data.equipment.value else ""
  }

  lemma {:induction false} AlertsOfNotices(sent: seq<Notice>, alerts: seq<Alert>, at: Instant)
    ensures AlertsOf(sent + Notices(alerts, at)) == AlertsOf(sent) + alerts
  {
    if alerts == [] {
      assert sent + Notices(alerts, at) == sent;
    } else {
      var before, last := alerts[..|alerts| - 1], alerts[|alerts| - 1];
      AlertsOfNotices(sent, before, at);
      var n := Notice(last, last.message, at);
      assert sent + Notices(alerts, at) == (sent + Notices(before, at)) + [n];
      assert ((sent + Notices(before, at)) + [n])[..|sent + Notices(before, at)|] == sent + Notices(before, at);
      assert before + [last] == alerts;
    }
  }

  lemma BufferedAlertsAreTraced(trace: seq<Alert>, buffer: map<string, seq<Alert>>, flushes: map<string, seq<Flush>>,
                                e: string)
    requires AllTakenIn(trace, buffer, flushes) || buffer == map[]
    ensures forall a <- BufferOf(buffer, e) :: a in trace
  {
    if buffer != map[] {
      ForEquipmentMembers(trace, e);
      assert ForEquipment(trace, e) == TakenIn(buffer, flushes, e);
    }
  }

  lemma LogGrows(log: seq<Flush>, f: Flush, window: real, since: Instant, shutDown: bool)
    requires LogValid(log, window, since, shutDown) && FlushValid(f) && since <= f.at
    requires f.byWindow ==> f.at - since >= window
    requires shutDown || f.byWindow
    ensures LogValid(log + [f], window, f.at, shutDown)
  {
    LaterLog(log, window, since, f.at, shutDown);
    assert (log + [f])[..|log|] == log;
  }

  /** Each alert is dispatched with the text it carries. */
  lemma {:induction false} NoticesAt(alerts: seq<Alert>, at: Instant, k: nat)
    requires k < |alerts|
    ensures |Notices(alerts, at)| == |alerts| && Notices(alerts, at)[k] == Notice(alerts[k], alerts[k].message, at)
  {
    var n := |alerts| - 1;
    if n > 0 { NoticesAt(alerts[..n], at, if k < n then k else n - 1); }
  }

  lemma OneNotice(a: Alert, at: Instant)
    ensures Notices([a], at) == [Notice(a, a.message, at)]
  {
    assert [a][..0] == [];
    assert Notices([a][..0], at) == [];
  }

  ghost function Notices(alerts: seq<Alert>, at: Instant): seq<Notice>
    reads alerts
  {
    if alerts == [] then [] else
    var last := alerts[|alerts| - 1];
    Notices(alerts[..|alerts| - 1], at) + [Notice(last, last.message, at)]
  }

  function AlertsOf(notices: seq<Notice>): seq<Alert> {
    if notices == [] then [] else AlertsOf(notices[..|notices| - 1]) + [notices[|notices| - 1].alert]
  }
}
