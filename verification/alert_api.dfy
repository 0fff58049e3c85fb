/** The in-memory branch of `GET /alerts`: cursor pages over the active alerts. */
module AlertApi {
  import opened Arithmetic
  import opened Common
  import opened Alerts

  /** One entry of `get_active_alerts`, as `to_dict` copies it from an alert. */
  datatype Detail = Detail(alertId: string, ruleId: string, equipment: string, severity: Severity,
                           message: seq<Part>, status: Status)

  datatype Page = Page(alerts: seq<Detail>, nextCursor: Option<string>, hasMore: bool)

  function ToDetail(a: Alert): (d: Detail)
    reads a
    ensures d.alertId == a.alertId && d.ruleId == a.ruleId && d.equipment == a.equipment
    ensures d.severity == a.severity && d.message == a.message && d.status == a.status
  {
    Detail(a.alertId, a.ruleId, a.equipment, a.severity, a.message, a.status)
  }

  /** An absent or empty cursor starts at the beginning, another one just after its first occurrence. */
  function After(list: seq<Detail>, cursor: Option<string>): seq<Detail> {
    if cursor.None? || cursor.value == "" then list else AfterId(list, cursor.value)
  }

  function AfterId(list: seq<Detail>, id: string): seq<Detail> {
    if list == [] then []
    else if list[0].alertId == id then list[1..]
    else AfterId(list[1..], id)
  }

  function PageOf(list: seq<Detail>, limit: nat, cursor: Option<string>): Page
    requires limit >= 1
  {
    var rest := After(list, cursor);
    if |rest| > limit then Page(rest[..limit], Some(rest[limit - 1].alertId), true)
    else Page(rest, None, false)
  }

  /** The skip loop and the slicing of `list_alerts`. */
  method ListAlerts(inMem: seq<Detail>, limit: nat, cursor: Option<string>) returns (page: Page)
    requires limit >= 1
    ensures page == PageOf(inMem, limit, cursor)
  {
    var rows := inMem;
    if cursor.Some? && cursor.value != "" {
      var skip := true;
      var filtered: seq<Detail> := [];
      var i := 0;
      while i < |inMem|
        invariant 0 <= i <= |inMem|
        invariant skip ==> filtered == [] && AfterId(inMem, cursor.value) == AfterId(inMem[i..], cursor.value)
        invariant !skip ==> AfterId(inMem, cursor.value) == filtered + inMem[i..]
      {
        assert inMem[i..] == [inMem[i]] + inMem[i + 1..];
        if skip {
          if inMem[i].alertId == cursor.value {
            skip := false;
          }
        } else {
          filtered := filtered + [inMem[i]];
        }
        i := i + 1;
      }
      rows := filtered;
    }
    var hasMore := |rows| > limit;
    rows := if |rows| > limit then rows[..limit] else rows;
    var nextCursor := if hasMore && rows != [] then Some(rows[|rows| - 1].alertId) else None;
    page := Page(rows, nextCursor, hasMore);
  }

  // ------------------------------------------------------------ the protocol

  /** Resuming after position `k` is exact if and only if no earlier alert has the same identifier. */
  lemma {:induction false} ResumesExactly(list: seq<Detail>, k: nat)
    requires k < |list|
    ensures AfterId(list, list[k].alertId) == list[k + 1..] <==>
              forall j :: 0 <= j < k ==> list[j].alertId != list[k].alertId
  {
    var id := list[k].alertId;
    if list[0].alertId == id {
      if k > 0 {
        assert |list[1..]| != |list[k + 1..]|;
        assert list[0].alertId == list[k].alertId;
      }
    } else {
      ResumesExactly(list[1..], k - 1);
      assert list[1..][k..] == list[k + 1..];
      if forall j :: 0 <= j < k - 1 ==> list[1..][j].alertId != id {
        forall j | 0 <= j < k ensures list[j].alertId != id {
          assert j > 0 ==> list[j] == list[1..][j - 1];
        }
      } else {
        var j :| 0 <= j < k - 1 && list[1..][j].alertId == id;
        assert list[j + 1].alertId == id;
      }
    }
  }

  /** A listing from which alerts have gone since, resolved by someone. */
  function Without(list: seq<Detail>, gone: set<string>): seq<Detail> {
    if list == [] then []
    else if list[0].alertId in gone then Without(list[1..], gone)
    else [list[0]] + Without(list[1..], gone)
  }

  /**
   `now` lists the alerts of `kept` in their order, with whatever fields have changed, and
   among them any others, none of them called `id`.
  */
  ghost predicate Merged(kept: seq<Detail>, now: seq<Detail>, id: string) {
    if now == [] then kept == [] else
    (kept != [] && now[0].alertId == kept[0].alertId && Merged(kept[1..], now[1..], id)) ||
    (now[0].alertId != id && Merged(kept, now[1..], id))
  }

  lemma {:induction false} MergedAbsent(kept: seq<Detail>, now: seq<Detail>, id: string)
    requires Merged(kept, now, id) && forall d <- kept :: d.alertId != id
    ensures AfterId(now, id) == []
  {
    if now != [] {
      if now[0].alertId != id && Merged(kept, now[1..], id) {
        MergedAbsent(kept, now[1..], id);
      } else {
        assert kept[0] in kept;
        MergedAbsent(kept[1..], now[1..], id);
      }
    }
  }

  /** What is listed behind an alert that is still there stays behind it. */
  lemma {:induction false} MergedBehind(before: seq<Detail>, d: Detail, behind: seq<Detail>, now: seq<Detail>)
    requires Merged(before + [d] + behind, now, d.alertId) && forall b <- before :: b.alertId != d.alertId
    ensures Merged(behind, AfterId(now, d.alertId), d.alertId)
    decreases |now|
  {
    var kept := before + [d] + behind;
    if now[0].alertId != d.alertId && Merged(kept, now[1..], d.alertId) {
      MergedBehind(before, d, behind, now[1..]);
    } else if before == [] {
      assert kept[0] == d && kept[1..] == behind;
    } else {
      assert kept[0] == before[0] && before[0] in before;
      assert kept[1..] == before[1..] + [d] + behind;
      MergedBehind(before[1..], d, behind, now[1..]);
    }
  }

  lemma {:induction false} WithoutSplit(s: seq<Detail>, t: seq<Detail>, gone: set<string>)
    ensures Without(s + t, gone) == Without(s, gone) + Without(t, gone)
  {
    if s == [] {
      assert s + t == t;
    } else {
      WithoutSplit(s[1..], t, gone);
      assert (s + t)[1..] == s[1..] + t;
    }
  }

  lemma {:induction false} WithoutMembers(list: seq<Detail>, gone: set<string>)
    ensures forall d <- Without(list, gone) :: d in list
  {
    if list != [] { WithoutMembers(list[1..], gone); }
  }

  /**
   The list may change between two requests: alerts go, and others turn up anywhere. The
   pages to come then show all that is left behind the cursor, in order, if and only if
   the cursor's own alert is still listed, or nothing is left to miss. If it is not, the
   next page is empty.
  */
  lemma ResumesAfterChangesExactly(list: seq<Detail>, gone: set<string>, now: seq<Detail>, k: nat)
    requires k < |list|
    requires forall j :: 0 <= j < |list| && j != k ==> list[j].alertId != list[k].alertId
    requires Merged(Without(list, gone), now, list[k].alertId)
    ensures var id, left := list[k].alertId, Without(list[k + 1..], gone);
            (Merged(left, AfterId(now, id), id) <==> id !in gone || left == []) &&
            (id in gone ==> AfterId(now, id) == [])
  {
    var d := list[k];
    var before, left := Without(list[..k], gone), Without(list[k + 1..], gone);
    assert list == (list[..k] + [d]) + list[k + 1..];
    WithoutSplit(list[..k] + [d], list[k + 1..], gone);
    WithoutSplit(list[..k], [d], gone);
    WithoutMembers(list[..k], gone);
    WithoutMembers(list[k + 1..], gone);
    forall other: Detail | other in before + left ensures other.alertId != d.alertId {
      if other in list[..k] {
        var j :| 0 <= j < k && list[..k][j] == other;
      } else {
        var j :| 0 <= j < |list[k + 1..]| && list[k + 1..][j] == other;
        assert list[k + 1 + j] == other;
      }
    }
    if d.alertId in gone {
      assert Without([d], gone) == [] && (before + []) + left == before + left;
      MergedAbsent(before + left, now, d.alertId);
    } else {
      assert Without([d], gone) == [d];
      MergedBehind(before, d, left, now);
    }
  }

  /**
   The k-th request (from 0) of a client that starts without a cursor and passes on each
   page's cursor until a page has none.
  */
  function Request(list: seq<Detail>, limit: nat, k: nat): Option<Page>
    requires limit >= 1
  {
    if k == 0 then Some(PageOf(list, limit, None)) else
    var previous := Request(list, limit, k - 1);
    if previous.None? || previous.value.nextCursor.None? then None
    else Some(PageOf(list, limit, previous.value.nextCursor))
  }

  /** What the client has read after k requests. */
  function ReadAfter(list: seq<Detail>, limit: nat, k: nat): seq<Detail>
    requires limit >= 1
  {
    if k == 0 then [] else
    var read, page := ReadAfter(list, limit, k - 1), Request(list, limit, k - 1);
    if page.None? then read else read + page.value.alerts
  }

  /** max(1, ceil(n / limit)) */
  function PageCount(n: nat, limit: nat): nat
    requires limit >= 1
  {
    if n == 0 then 1 else (n + limit - 1) / limit
  }

  /** The page that shows the alerts from position `start` on. */
  function Chunk(list: seq<Detail>, limit: nat, start: nat): Page
    requires limit >= 1 && start <= |list|
  {
    if start + limit < |list| then Page(list[start..start + limit], Some(list[start + limit - 1].alertId), true)
    else Page(list[start..], None, false)
  }

  /** How many alerts a cursor skips: those up to its first occurrence; none if it is empty. */
  function ResumeAt(list: seq<Detail>, id: string): (r: nat)
    ensures r <= |list|
  {
    if id == "" || list == [] then 0
    else if list[0].alertId == id then 1
    else 1 + ResumeAt(list[1..], id)
  }

  lemma {:induction false} ResumeAtSkips(list: seq<Detail>, id: string)
    ensures After(list, Some(id)) == list[ResumeAt(list, id)..]
  {
    if id != "" && list != [] && list[0].alertId != id {
      ResumeAtSkips(list[1..], id);
    }
  }

  /**
   On any list, however it has changed since the cursor was read: an alert is on the pages
   to come if and only if some alert ahead of it carries the cursor's name.
  */
  lemma {:induction false} ShownLaterIff(now: seq<Detail>, id: string, at: nat)
    requires at < |now| && id != ""
    ensures After(now, Some(id)) == now[ResumeAt(now, id)..]
    ensures ResumeAt(now, id) <= at <==> exists j :: 0 <= j < at && now[j].alertId == id
  {
    ResumeAtSkips(now, id);
    if now[0].alertId != id && at > 0 {
      ShownLaterIff(now[1..], id, at - 1);
      assert forall j :: 0 <= j < at - 1 ==> now[1..][j] == now[j + 1];
      assert forall j :: 1 <= j < at ==> now[j] == now[1..][j - 1];
    }
  }

  /** The alert before position `p` has a name of its own among those before it. */
  ghost predicate FirstListed(list: seq<Detail>, p: nat)
    requires 1 <= p <= |list|
  {
    list[p - 1].alertId != "" && forall j :: 0 <= j < p - 1 ==> list[j].alertId != list[p - 1].alertId
  }

  /** A cursor never skips further than where it was read, and exactly so far if it was listed first there. */
  lemma {:induction false} ResumeAtFirst(list: seq<Detail>, p: nat)
    requires 1 <= p <= |list|
    ensures ResumeAt(list, list[p - 1].alertId) <= p
    ensures ResumeAt(list, list[p - 1].alertId) == p <==> FirstListed(list, p)
  {
    var id := list[p - 1].alertId;
    if id != "" && list[0].alertId != id {
      ResumeAtFirst(list[1..], p - 1);
      if FirstListed(list[1..], p - 1) {
        forall j | 0 <= j < p - 1 ensures list[j].alertId != id {
          assert j > 0 ==> list[j] == list[1..][j - 1];
        }
      }
      if FirstListed(list, p) {
        forall j | 0 <= j < p - 2 ensures list[1..][j].alertId != id {
          assert list[1..][j] == list[j + 1];
        }
      }
    }
  }

  /** Where request k starts to show alerts, if it is made. */
  function StartOf(list: seq<Detail>, limit: nat, k: nat): (start: Option<nat>)
    requires limit >= 1
    ensures start.Some? ==> start.value <= |list|
  {
    if k == 0 then Some(0) else
    var previous := StartOf(list, limit, k - 1);
    if previous.None? || previous.value + limit >= |list| then None
    else Some(ResumeAt(list, list[previous.value + limit - 1].alertId))
  }

  /** On any list, request k shows the page from its start on, and is made as long as the page before had more. */
  lemma {:induction false} RequestShows(list: seq<Detail>, limit: nat, k: nat)
    requires limit >= 1
    ensures var start := StartOf(list, limit, k);
            Request(list, limit, k) == if start.None? then None else Some(Chunk(list, limit, start.value))
  {
    if k > 0 {
      RequestShows(list, limit, k - 1);
      var previous := StartOf(list, limit, k - 1);
      if previous.Some? && previous.value + limit < |list| {
        PageFromCursor(list, limit, list[previous.value + limit - 1].alertId);
      }
    }
  }

  lemma PageFromCursor(list: seq<Detail>, limit: nat, id: string)
    requires limit >= 1
    ensures PageOf(list, limit, Some(id)) == Chunk(list, limit, ResumeAt(list, id))
  {
    var start := ResumeAt(list, id);
    ResumeAtSkips(list, id);
    var rest := list[start..];
    if |rest| > limit {
      assert rest[..limit] == list[start..start + limit];
    }
  }

  /** Requests never run ahead. */
  lemma {:induction false} NeverAhead(list: seq<Detail>, limit: nat, k: nat)
    requires limit >= 1
    ensures StartOf(list, limit, k).Some? ==> StartOf(list, limit, k).value <= k * limit
  {
    if k > 0 && StartOf(list, limit, k).Some? {
      NeverAhead(list, limit, k - 1);
      var previous := StartOf(list, limit, k - 1).value;
      ResumeAtFirst(list, previous + limit);
      MulSuccessor(k - 1, limit);
    }
  }

  /** The cursor at the end of the k-th full page, if there is one and more follows, was listed first there. */
  ghost predicate CursorFirst(list: seq<Detail>, limit: nat, k: nat) {
    1 <= k && 1 <= k * limit < |list| ==> FirstListed(list, k * limit)
  }

  /** So are all cursors the client will be given. */
  ghost predicate CursorsFirst(list: seq<Detail>, limit: nat) {
    forall k: nat :: CursorFirst(list, limit, k)
  }

  /** Then request k starts at position k * limit. */
  lemma {:induction false} OnTrack(list: seq<Detail>, limit: nat, k: nat)
    requires limit >= 1 && CursorsFirst(list, limit)
    ensures 0 <= k * limit
    ensures StartOf(list, limit, k) == if k * limit == 0 || k * limit < |list| then Some(k * limit) else None
  {
    MulMonotone(0, k, limit);
    if k > 0 {
      OnTrack(list, limit, k - 1);
      MulSuccessor(k - 1, limit);
      if k * limit < |list| {
        assert CursorFirst(list, limit, k);
        ResumeAtFirst(list, k * limit);
      }
    }
  }

  function UpTo(list: seq<Detail>, n: nat): seq<Detail> {
    if n < |list| then list[..n] else list
  }

  /** And after k requests the client has read the first k * limit alerts, in order and without repetition. */
  lemma {:induction false} ReadInOrder(list: seq<Detail>, limit: nat, k: nat)
    requires limit >= 1 && CursorsFirst(list, limit)
    ensures 0 <= k * limit && ReadAfter(list, limit, k) == UpTo(list, k * limit)
  {
    MulMonotone(0, k, limit);
    if k > 0 {
      ReadInOrder(list, limit, k - 1);
      RequestShows(list, limit, k - 1);
      OnTrack(list, limit, k - 1);
      MulSuccessor(k - 1, limit);
      MulMonotone(0, k - 1, limit);
      ChunkExtends(list, limit, (k - 1) * limit);
    }
  }

  lemma ChunkExtends(list: seq<Detail>, limit: nat, start: nat)
    requires limit >= 1
    ensures start == 0 || start < |list| ==>
              UpTo(list, start + limit) == UpTo(list, start) + Chunk(list, limit, start).alerts
    ensures start >= |list| ==> UpTo(list, start + limit) == UpTo(list, start)
  {
  }

  /** Before request k the client has read k full pages. */
  lemma {:induction false} ReadLength(list: seq<Detail>, limit: nat, k: nat)
    requires limit >= 1 && StartOf(list, limit, k).Some?
    ensures |ReadAfter(list, limit, k)| == k * limit
  {
    if k > 0 {
      ReadLength(list, limit, k - 1);
      RequestShows(list, limit, k - 1);
      MulSuccessor(k - 1, limit);
    }
  }

  /** A request that starts where it should is only reached by cursors listed first. */
  lemma {:induction false} TrackBehind(list: seq<Detail>, limit: nat, k: nat, j: nat)
    requires limit >= 1 && j <= k && 0 <= k * limit && StartOf(list, limit, k) == Some(k * limit)
    ensures CursorFirst(list, limit, j)
  {
    if k > 0 {
      MulSuccessor(k - 1, limit);
      MulMonotone(0, k - 1, limit);
      NeverAhead(list, limit, k - 1);
      var previous := StartOf(list, limit, k - 1).value;
      ResumeAtFirst(list, previous + limit);
      if j < k {
        TrackBehind(list, limit, k - 1, j);
      }
    }
  }

  /** The client makes max(1, ceil(n / limit)) requests and has then read every alert exactly once, in order. */
  ghost predicate ReadsAll(list: seq<Detail>, limit: nat)
    requires limit >= 1
  {
    (forall k: nat :: Request(list, limit, k).Some? <==> k < PageCount(|list|, limit)) &&
    ReadAfter(list, limit, PageCount(|list|, limit)) == list
  }

  /**
   Paging is complete if and only if every cursor at the end of a full page has a name that
   no alert before it has, which can be seen from the list before the first request.
  */
  lemma PagingIsCompleteIff(list: seq<Detail>, limit: nat)
    requires limit >= 1
    ensures ReadsAll(list, limit) <==> CursorsFirst(list, limit)
  {
    if CursorsFirst(list, limit) {
      FirstCursorsReadAll(list, limit);
    }
    if ReadsAll(list, limit) {
      forall k: nat ensures CursorFirst(list, limit, k) {
        ReadingAllNeedsFirst(list, limit, k);
      }
    }
  }

  lemma FirstCursorsReadAll(list: seq<Detail>, limit: nat)
    requires limit >= 1 && CursorsFirst(list, limit)
    ensures ReadsAll(list, limit)
  {
    forall k: nat ensures Request(list, limit, k).Some? <==> k < PageCount(|list|, limit) {
      RequestShows(list, limit, k);
      OnTrack(list, limit, k);
      CeilingBound(|list|, limit, k);
    }
    ReadInOrder(list, limit, PageCount(|list|, limit));
    CeilingBound(|list|, limit, PageCount(|list|, limit));
  }

  /** A last page that completes the list starts where the pages before it end. */
  lemma LastPageStart(list: seq<Detail>, limit: nat, last: nat)
    requires limit >= 1 && StartOf(list, limit, last).Some? && StartOf(list, limit, last + 1).None?
    requires ReadAfter(list, limit, last + 1) == list
    ensures StartOf(list, limit, last).value == |ReadAfter(list, limit, last)|
  {
    RequestShows(list, limit, last);
    var start := StartOf(list, limit, last).value;
    assert |list| == |ReadAfter(list, limit, last)| + |list[start..]|;
  }

  /** When everything is read exactly once, the last request starts where it should. */
  lemma LastIsOnTrack(list: seq<Detail>, limit: nat, last: nat)
    requires limit >= 1 && Request(list, limit, last).Some? && Request(list, limit, last + 1).None?
    requires ReadAfter(list, limit, last + 1) == list
    ensures 0 <= last * limit && StartOf(list, limit, last) == Some(last * limit)
  {
    RequestShows(list, limit, last);
    RequestShows(list, limit, last + 1);
    ReadLength(list, limit, last);
    LastPageStart(list, limit, last);
  }

  lemma ReadingAllNeedsFirst(list: seq<Detail>, limit: nat, k: nat)
    requires limit >= 1 && ReadsAll(list, limit)
    ensures CursorFirst(list, limit, k)
  {
    if 1 <= k && 1 <= k * limit < |list| {
      var last := PageCount(|list|, limit) - 1;
      CeilingBound(|list|, limit, k);
      LastIsOnTrack(list, limit, last);
      TrackBehind(list, limit, last, k);
    }
  }

  predicate Clash(list: seq<Detail>, i: nat, j: nat)
    requires i < j < |list|
  {
    list[i].alertId == list[j].alertId
  }

  ghost predicate DistinctIds(list: seq<Detail>) {
    (forall i: nat, j: nat {:trigger Clash(list, i, j)} :: i < j < |list| ==> !Clash(list, i, j)) &&
    forall d <- list :: d.alertId != ""
  }

  lemma DistinctCursorsFirst(list: seq<Detail>, limit: nat)
    requires DistinctIds(list)
    ensures CursorsFirst(list, limit)
  {
    forall k: nat ensures CursorFirst(list, limit, k) {
      var p := k * limit;
      if 1 <= k && 1 <= p < |list| {
        assert list[p - 1] in list;
        forall j | 0 <= j < p - 1 ensures list[j].alertId != list[p - 1].alertId {
          assert !Clash(list, j, p - 1);
        }
      }
    }
  }

  /** In particular it is complete when no two alerts share a name, whatever the page size. */
  lemma PagingIsComplete(list: seq<Detail>, limit: nat)
    requires limit >= 1 && DistinctIds(list)
    ensures ReadsAll(list, limit)
  {
    DistinctCursorsFirst(list, limit);
    PagingIsCompleteIff(list, limit);
  }

  lemma CeilingBound(n: nat, limit: nat, k: nat)
    requires limit >= 1
    ensures k * limit == 0 || k * limit < n <==> k < PageCount(n, limit)
  {
    if n > 0 {
      // k * limit < n exactly when (k + 1) * limit <= n + limit - 1
      MulSuccessor(k, limit);
      FloorGalois(n + limit - 1, limit, k + 1);
    } else if k >= 1 {
      MulMonotone(1, k, limit);
    }
  }
}
