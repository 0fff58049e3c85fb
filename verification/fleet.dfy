/** Run-to-failure simulation of a fleet: failure modes, equipment and the orchestrator's loop. */
module Fleet {
  import opened Common

  datatype Stage = Early | Middle | Late | CriticalStage

  datatype FailureMode = FailureMode(name: string, rulRemaining: int, totalRul: int) {
    function GetDegradationStage(): Stage {
      var percentage := if totalRul > 0 then rulRemaining as real / totalRul as real else 0.0;
      if percentage > 0.7 then Early
      else if percentage > 0.3 then Middle
      else if percentage > 0.1 then Late
      else CriticalStage
    }

    function UpdateRul(): FailureMode {
      this.(rulRemaining := if rulRemaining - 1 > 0 then rulRemaining - 1 else 0)
    }
  }

  function Severity(s: Stage): nat {
    match s case Early => 0 case Middle => 1 case Late => 2 case CriticalStage => 3
  }

  /** The stage tells which share of the life is left: more than 70 percent, than 30, than 10, or no more than that. */
  lemma StageExactly(f: FailureMode)
    ensures var stage, left := f.GetDegradationStage(), f.rulRemaining * 10;
            f.totalRul > 0 ==>
              (stage == Early <==> left > f.totalRul * 7) &&
              (stage == Middle <==> f.totalRul * 3 < left <= f.totalRul * 7) &&
              (stage == Late <==> f.totalRul < left <= f.totalRul * 3) &&
              (stage == CriticalStage <==> left <= f.totalRul)
    ensures f.totalRul <= 0 ==> f.GetDegradationStage() == CriticalStage
  {
    if f.totalRul > 0 {
      ShareExceeds(f.rulRemaining, f.totalRul, 7);
      ShareExceeds(f.rulRemaining, f.totalRul, 3);
      ShareExceeds(f.rulRemaining, f.totalRul, 1);
    }
  }

  lemma ShareExceeds(left: int, total: int, tenths: int)
    requires total > 0
    ensures left as real / total as real > tenths as real / 10.0 <==> left * 10 > total * tenths
  {
    var q, t := left as real / total as real, total as real;
    assert q * t == left as real;
    if q > tenths as real / 10.0 {
      assert (q - tenths as real / 10.0) * t > 0.0;
    } else {
      assert (tenths as real / 10.0 - q) * t >= 0.0;
    }
    assert tenths as real / 10.0 * t == (total * tenths) as real / 10.0;
  }

  /** Wear never heals: a cycle leaves the stage as it is or moves it forward. */
  lemma StageNeverMovesBack(f: FailureMode)
    ensures Severity(f.UpdateRul().GetDegradationStage()) >= Severity(f.GetDegradationStage())
    ensures var before, after := f.GetDegradationStage(), f.UpdateRul().GetDegradationStage();
            (before != Early ==> after != Early) && (before == Late ==> after != Middle) &&
            (before == CriticalStage ==> after == CriticalStage)
  {
    if f.totalRul > 0 {
      var t, a, b := f.totalRul as real, f.rulRemaining as real, f.UpdateRul().rulRemaining as real;
      if f.rulRemaining > 0 {
        assert b / t <= a / t;
      } else {
        assert a / t <= 0.0 && b / t == 0.0;
      }
    }
  }

  /** What `create_failure_mode` draws: the total life, and how many cycles ago an early start happened, if any. */
  datatype Draw = Draw(name: string, totalRul: int, elapsed: Option<nat>) {
    function Mode(): FailureMode {
      FailureMode(name,
                  if elapsed.None? then totalRul
                  else if totalRul - elapsed.value > 10 then totalRul - elapsed.value else 10,
                  totalRul)
    }

    /** An early start is only drawn for running equipment, from `randint(0, min(cycle, total // 2))`. */
    predicate Possible(cycle: nat) {
      elapsed.Some? ==> elapsed.value < cycle && elapsed.value < totalRul / 2
    }
  }

  /** Equipment that starts early has what is left of its life, but ten cycles at least. */
  lemma ModeExactly(d: Draw)
    ensures var left := d.Mode().rulRemaining;
            d.Mode().totalRul == d.totalRul && d.Mode().name == d.name &&
            (d.elapsed.None? ==> left == d.totalRul) &&
            (d.elapsed.Some? ==> left >= 10 && left >= d.totalRul - d.elapsed.value &&
                                 (left == 10 || left == d.totalRul - d.elapsed.value))
  {
  }

  /** The remaining life never exceeds the total, except that an early start on a total below ten is reset to ten. */
  lemma RemainingWithinTotal(d: Draw)
    ensures d.Mode().rulRemaining <= d.totalRul <==> d.elapsed.None? || d.totalRul >= 10
    ensures d.totalRul > 0 ==> d.Mode().rulRemaining > 0
  {
  }

  /** What matters of a piece of equipment: cycles left (None: never fails), cycles done, severity of its stage. */
  datatype View = Snapshot(life: Option<nat>, cycle: nat, stage: nat)

  /** One cycle of wear: a cycle less to live, a message more if it was alive and the broker accepted. */
  ghost predicate Moved(v: View, w: View, accepted: bool) {
    w.life == Remaining(v.life, 1) && w.stage >= v.stage &&
    w.cycle == v.cycle + if accepted && v.life != Some(0) then 1 else 0
  }

  class Equipment {
    var currentCycle: nat
    var failureMode: Option<FailureMode>
    var isFailed: bool
    var hasFailureInjected: bool
    var totalMessagesSent: nat

    constructor ()
      ensures Valid() && currentCycle == 0 && failureMode == None && !isFailed
    {
      currentCycle, failureMode, isFailed, hasFailureInjected, totalMessagesSent := 0, None, false, false, 0;
    }

    /** Each message accepted is one cycle, and only worn-out equipment is failed. */
    ghost predicate Valid()
      reads this
    {
      totalMessagesSent == currentCycle && (hasFailureInjected <==> failureMode.Some?) &&
      (isFailed ==> failureMode.Some? && failureMode.value.rulRemaining <= 0)
    }

    /** Cycles until failure; None for equipment that never fails. */
    ghost function Life(): Option<nat>
      reads this
    {
      if isFailed then Some(0)
      else if failureMode.None? then None
      else Some(if failureMode.value.rulRemaining <= 1 then 1 else failureMode.value.rulRemaining)
    }

    ghost function View(): View
      reads this
    {
      Snapshot(Life(), currentCycle,
           if failureMode.None? then 0 else Severity(failureMode.value.GetDegradationStage()))
    }

    /** None when the failure mode is not configured for the equipment type. */
    method InjectFailure(draw: Option<Draw>) returns (ok: bool)
      requires Valid() && (draw.Some? ==> draw.value.Possible(currentCycle))
      modifies this`failureMode, this`hasFailureInjected
      ensures Valid()
      ensures ok <==> !old(hasFailureInjected) && draw.Some?
      ensures failureMode == if ok then Some(draw.value.Mode()) else old(failureMode)
    {
      if hasFailureInjected || draw.None? {
        return false;
      }
      failureMode, hasFailureInjected := Some(draw.value.Mode()), true;
      return true;
    }

    /** One cycle of wear whether or not the broker accepts the message; failed equipment stays silent. */
    method GenerateAndPublish(accepted: bool) returns (success: bool)
      requires Valid()
      modifies this`currentCycle, this`failureMode, this`isFailed, this`totalMessagesSent
      ensures Valid()
      ensures success <==> accepted && !old(isFailed)
      ensures Moved(old(View()), View(), accepted)
    {
      if isFailed {
        return false;
      }
      if failureMode.Some? {
        StageNeverMovesBack(failureMode.value);
        failureMode := Some(failureMode.value.UpdateRul());
        if failureMode.value.rulRemaining <= 0 {
          isFailed := true;
        }
      }
      success := accepted;
      if success {
        totalMessagesSent := totalMessagesSent + 1;
        currentCycle := currentCycle + 1;
      }
    }
  }

  /** What is left of a life after some cycles. */
  function Remaining(life: Option<nat>, cycles: nat): Option<nat> {
    if life.None? then None else if life.value <= cycles then Some(0) else Some(life.value - cycles)
  }

  // ----------------------------------------------------------- the orchestrator

  /** How many of the first `cycles` messages of equipment `i` the broker accepts. */
  function AcceptedMessages(accepts: (nat, nat) -> bool, i: nat, cycles: nat): (n: nat)
    ensures n <= cycles
    ensures (forall c: nat :: accepts(c, i)) ==> n == cycles
  {
    if cycles == 0 then 0
    else AcceptedMessages(accepts, i, cycles - 1) + if accepts(cycles - 1, i) then 1 else 0
  }

  /** Cycles in which equipment takes part. */
  function Active(life: Option<nat>, cycles: nat): nat {
    if life.Some? && life.value <= cycles then life.value else cycles
  }

  /** The longest of the lives. */
  function Longest(views: seq<View>): nat {
    if views == [] then 0 else
    var before, last := Longest(views[..|views| - 1]), views[|views| - 1].life;
    if last.Some? && last.value > before then last.value else before
  }

  lemma {:induction false} LongestBounds(views: seq<View>)
    ensures forall i :: 0 <= i < |views| && views[i].life.Some? ==> views[i].life.value <= Longest(views)
    ensures Longest(views) > 0 ==> exists i :: 0 <= i < |views| && views[i].life == Some(Longest(views))
  {
    if views != [] {
      var before := views[..|views| - 1];
      LongestBounds(before);
      if Longest(views) == Longest(before) > 0 {
        var i :| 0 <= i < |before| && before[i].life == Some(Longest(before));
        assert views[i].life == Some(Longest(views));
      } else if Longest(views) > 0 {
        assert views[|views| - 1].life == Some(Longest(views));
      }
    }
  }

  predicate AllWear(views: seq<View>) {
    forall i :: 0 <= i < |views| ==> views[i].life.Some?
  }

  /** How long `run` lasts; `maxCycles` 0 stands for no limit. */
  function Horizon(views: seq<View>, maxCycles: nat): nat {
    if !AllWear(views) then maxCycles
    else if maxCycles == 0 || Longest(views) < maxCycles then Longest(views)
    else maxCycles
  }

  class DataGeneratorOrchestrator {
    const equipmentList: seq<Equipment>

    constructor (fleet: seq<Equipment>)
      requires forall i, j :: 0 <= i < j < |fleet| ==> fleet[i] != fleet[j]
      requires forall e <- fleet :: e.Valid()
      ensures equipmentList == fleet && Valid()
    {
      equipmentList := fleet;
    }

    ghost predicate Valid()
      reads equipmentList
    {
      (forall i, j :: 0 <= i < j < |equipmentList| ==> equipmentList[i] != equipmentList[j]) &&
      forall e <- equipmentList :: e.Valid()
    }

    ghost function Views(): (views: seq<View>)
      reads equipmentList
      ensures |views| == |equipmentList| && forall i :: 0 <= i < |views| ==> views[i] == equipmentList[i].View()
    {
      seq(|equipmentList|, i requires 0 <= i < |equipmentList| reads equipmentList => equipmentList[i].View())
    }

    /** The list comprehension at the top of the loop. */
    method ActiveEquipment() returns (active: seq<nat>)
      ensures forall k :: 0 <= k < |active| ==> active[k] < |equipmentList| && !equipmentList[active[k]].isFailed
      ensures forall k, l :: 0 <= k < l < |active| ==> active[k] != active[l]
      ensures forall i: nat :: i < |equipmentList| && !equipmentList[i].isFailed ==> i in active
    {
      active := [];
      for i := 0 to |equipmentList|
        invariant forall k :: 0 <= k < |active| ==> active[k] < i && !equipmentList[active[k]].isFailed
        invariant forall k, l :: 0 <= k < l < |active| ==> active[k] != active[l]
        invariant forall j: nat :: j < i && !equipmentList[j].isFailed ==> j in active
      {
        if !equipmentList[i].isFailed {
          active := active + [i];
          assert active[|active| - 1] == i;
        }
      }
    }

    /** One pass over the active equipment; for the rest nothing changes, which is how worn-out equipment moves. */
    method RunCycle(active: seq<nat>, cycle: nat, accepts: (nat, nat) -> bool)
      requires Valid()
      requires forall k :: 0 <= k < |active| ==> active[k] < |equipmentList|
      requires forall k, l :: 0 <= k < l < |active| ==> active[k] != active[l]
      requires forall i: nat :: i < |equipmentList| && !equipmentList[i].isFailed ==> i in active
      modifies equipmentList
      ensures Valid()
      ensures AllMoved(old(Views()), Views(), cycle, accepts)
    {
      ghost var before := Views();
      var k := 0;
      while k < |active|
        invariant 0 <= k <= |active| && Valid()
        invariant forall i: nat :: i < |equipmentList| ==>
                    if i in active[..k] then Moved(before[i], equipmentList[i].View(), accepts(cycle, i))
                    else equipmentList[i].View() == before[i]
      {
        var i := active[k];
        assert i !in active[..k];
        assert forall j: nat :: j < |equipmentList| && j != i ==> equipmentList[j] != equipmentList[i];
        var success := equipmentList[i].GenerateAndPublish(accepts(cycle, i));
        assert active[..k + 1] == active[..k] + [i];
        k := k + 1;
      }
      assert active[..k] == active;
    }

    /** The body of the loop in `run`: false, and nothing done, when all equipment has failed. */
    method PassOver(cycle: nat, accepts: (nat, nat) -> bool) returns (alive: bool, ghost survivor: nat)
      requires Valid()
      modifies equipmentList
      ensures Valid()
      ensures !alive ==> Views() == old(Views()) && forall i: nat :: i < |Views()| ==> Views()[i].life == Some(0)
      ensures alive ==> survivor < |equipmentList| && old(Views())[survivor].life != Some(0) &&
                        AllMoved(old(Views()), Views(), cycle, accepts)
    {
      var active := ActiveEquipment();
      alive, survivor := active != [], 0;
      if alive {
        survivor := active[0];
        assert Views()[survivor] == equipmentList[survivor].View();
        RunCycle(active, cycle, accepts);
      } else {
        forall i: nat | i < |Views()| ensures Views()[i].life == Some(0) {
          assert Views()[i] == equipmentList[i].View() && i !in active;
        }
      }
    }

    /**
     `run`, with `accepts` telling which messages the broker takes (cycle, equipment), and
     no limit when `maxCycles` is 0. It needs a limit only if some equipment never fails.
     It lasts exactly its horizon, and equipment takes part until its own life is over.
    */
    method Run(maxCycles: nat, accepts: (nat, nat) -> bool) returns (cycle: nat)
      requires Valid() && (maxCycles == 0 ==> AllWear(Views()))
      modifies equipmentList
      ensures Valid()
      ensures cycle == old(Horizon(Views(), maxCycles))
      ensures AllAfter(old(Views()), Views(), cycle, accepts)
    {
      cycle := 0;
      ghost var start := Views();
      while true
        invariant Valid()
        invariant cycle <= Horizon(start, maxCycles)
        invariant maxCycles > 0 ==> cycle < maxCycles
        invariant AllAfter(start, Views(), cycle, accepts)
        decreases Horizon(start, maxCycles) - cycle
      {
        ghost var now := Views();
        var alive: bool;
        ghost var survivor: nat;
        alive, survivor := PassOver(cycle, accepts);
        if !alive {
          NobodyLeft(start, now, cycle, maxCycles, accepts);
          break;
        }
        SomebodyLeft(start, now, survivor, cycle, maxCycles, accepts);
        AfterOneMore(start, now, Views(), cycle, accepts);
        cycle := cycle + 1;
        if maxCycles > 0 && cycle >= maxCycles {
          break;
        }
      }
    }
  }

  /** Where a piece of equipment is after some cycles. */
  ghost predicate After(v: View, w: View, i: nat, cycles: nat, accepts: (nat, nat) -> bool) {
    w.life == Remaining(v.life, cycles) && w.stage >= v.stage &&
    w.cycle == v.cycle + AcceptedMessages(accepts, i, Active(v.life, cycles))
  }

  ghost predicate AllAfter(start: seq<View>, now: seq<View>, cycles: nat, accepts: (nat, nat) -> bool) {
    |start| == |now| &&
    forall i: nat {:trigger After(start[i], now[i], i, cycles, accepts)} :: i < |start| ==>
      After(start[i], now[i], i, cycles, accepts)
  }

  ghost predicate AllMoved(before: seq<View>, after: seq<View>, cycle: nat, accepts: (nat, nat) -> bool) {
    |before| == |after| &&
    forall i: nat {:trigger Moved(before[i], after[i], accepts(cycle, i))} :: i < |before| ==>
      Moved(before[i], after[i], accepts(cycle, i))
  }

  lemma AfterOneMore(start: seq<View>, before: seq<View>, after: seq<View>, cycle: nat, accepts: (nat, nat) -> bool)
    requires AllAfter(start, before, cycle, accepts) && AllMoved(before, after, cycle, accepts)
    ensures AllAfter(start, after, cycle + 1, accepts)
  {
    forall i: nat | i < |start| ensures After(start[i], after[i], i, cycle + 1, accepts) {
      assert After(start[i], before[i], i, cycle, accepts);
      assert Moved(before[i], after[i], accepts(cycle, i));
    }
  }

  lemma NobodyLeft(start: seq<View>, now: seq<View>, cycle: nat, maxCycles: nat, accepts: (nat, nat) -> bool)
    requires AllAfter(start, now, cycle, accepts) && forall i: nat :: i < |now| ==> now[i].life == Some(0)
    requires cycle <= Horizon(start, maxCycles) && (maxCycles > 0 ==> cycle < maxCycles)
    ensures cycle == Horizon(start, maxCycles)
  {
    LongestBounds(start);
    forall i: nat | i < |start| ensures now[i].life == Remaining(start[i].life, cycle) {
      assert After(start[i], now[i], i, cycle, accepts);
    }
  }

  lemma SomebodyLeft(start: seq<View>, now: seq<View>, i: nat, cycle: nat, maxCycles: nat, accepts: (nat, nat) -> bool)
    requires AllAfter(start, now, cycle, accepts) && i < |start| && now[i].life != Some(0)
    requires maxCycles > 0 ==> cycle < maxCycles
    requires maxCycles == 0 ==> AllWear(start)
    ensures cycle < Horizon(start, maxCycles)
  {
    assert After(start[i], now[i], i, cycle, accepts);
    LongestBounds(start);
  }

  /** The messages a whole fleet has sent. */
  function TotalCycles(views: seq<View>): nat {
    if views == [] then 0 else TotalCycles(views[..|views| - 1]) + views[|views| - 1].cycle
  }

  function TotalLife(views: seq<View>): nat
    requires AllWear(views)
  {
    if views == [] then 0 else TotalLife(views[..|views| - 1]) + views[|views| - 1].life.value
  }

  /**
   A fleet in which everything wears and every message is accepted sends, in a run
   without limit, exactly as many messages as it has cycles of life.
  */
  lemma {:induction false} MessagesAreLives(start: seq<View>, end: seq<View>, cycles: nat, accepts: (nat, nat) -> bool)
    requires AllWear(start) && forall c: nat, i: nat :: accepts(c, i)
    requires Longest(start) <= cycles
    requires AllAfter(start, end, cycles, accepts)
    ensures TotalCycles(end) == TotalCycles(start) + TotalLife(start)
    ensures forall i: nat :: i < |end| ==> end[i].life == Some(0)
  {
    if start != [] {
      var n := |start| - 1;
      LongestBounds(start);
      assert After(start[n], end[n], n, cycles, accepts);
      assert AllAfter(start[..n], end[..n], cycles, accepts) by {
        forall i: nat | i < n ensures After(start[..n][i], end[..n][i], i, cycles, accepts) {
          assert After(start[i], end[i], i, cycles, accepts);
        }
      }
      MessagesAreLives(start[..n], end[..n], cycles, accepts);
    }
  }
}
