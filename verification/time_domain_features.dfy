/** Time-domain features: rolling windows and rates of change over one bounded deque per sensor. */
module TimeDomain {
  import opened Common
  import opened SensorLog

  /** The largest window, which is the capacity of every deque. */
  function Max(windows: seq<nat>): (r: nat)
    requires windows != []
    ensures r in windows && forall w <- windows :: w <= r
  {
    var last := windows[|windows| - 1];
    if |windows| == 1 then last else
    var rest := Max(windows[..|windows| - 1]);
    assert windows == windows[..|windows| - 1] + [last];
    if rest < last then last else rest
  }

  /** The slice `list(buffer)[-w:]`, which for `w == 0` is the whole list. */
  function LastOf(buffer: seq<real>, w: nat): seq<real>
    requires w <= |buffer|
  {
    if w == 0 then buffer else buffer[|buffer| - w..]
  }

  /** Change in percent of the earlier value's magnitude, zero when there is nothing to divide by. */
  function PercentChange(previous: real, current: real): real {
    if previous == 0.0 then 0.0
    else (current - previous) / (if previous < 0.0 then -previous else previous) * 100.0
  }

  /** The percentage takes the earlier value to the current one, and rises and falls with it. */
  lemma PercentChangeMeaning(previous: real, current: real)
    ensures previous == 0.0 ==> PercentChange(previous, current) == 0.0
    ensures var size := if previous < 0.0 then -previous else previous;
            previous != 0.0 ==>
              previous + PercentChange(previous, current) / 100.0 * size == current &&
              (PercentChange(previous, current) > 0.0 <==> current > previous)
  {
    var size := if previous < 0.0 then -previous else previous;
    if previous != 0.0 {
      var q := (current - previous) / size;
      assert PercentChange(previous, current) == q * 100.0;
      assert q * size == current - previous;
      if q > 0.0 {
        assert q * size > 0.0;
      } else {
        assert (-q) * size >= 0.0;
      }
    }
  }

  /** What one sensor contributes; `rolling` holds the data each window's statistics are computed from. */
  datatype SensorFeatures = SensorFeatures(current: real, rolling: map<nat, seq<real>>, roc: map<nat, real>)

  datatype Config = Config(rollingWindows: seq<nat>, rocEnabled: bool, rocWindows: seq<nat>)

  /** Exactly the windows the history fills, each with the true last values. */
  function TrueWindows(h: seq<real>, windows: seq<nat>, capacity: nat): map<nat, seq<real>> {
    map w: nat | w in windows && w <= |h| && capacity > 0 :: if w == 0 then Suffix(h, capacity) else h[|h| - w..]
  }

  /** Exactly the distances that both the history and the deque reach back, each with the true change. */
  function TrueChanges(h: seq<real>, windows: seq<nat>, capacity: nat): map<nat, real> {
    map w: nat | w in windows && w + 1 <= |h| && w + 1 <= capacity :: PercentChange(h[|h| - 1 - w], h[|h| - 1])
  }

  /** The features promised to a sensor whose whole history is `h`. */
  function Promised(h: seq<real>, c: Config): SensorFeatures
    requires c.rollingWindows != [] && h != []
  {
    var capacity := Max(c.rollingWindows);
    SensorFeatures(h[|h| - 1], TrueWindows(h, c.rollingWindows, capacity),
                   TrueChanges(h, if c.rocEnabled then c.rocWindows else [], capacity))
  }

  /** `window` holds the newest values, one by one: `w` of them, or for `w` zero all that the deque can hold. */
  ghost predicate Newest(h: seq<real>, window: seq<real>, w: nat, capacity: nat) {
    |window| == (if w > 0 then w else if |h| < capacity then |h| else capacity) && |window| <= |h| &&
    forall k :: 0 <= k < |window| ==> window[k] == h[|h| - |window| + k]
  }

  /** `change` is the percentage of its own magnitude by which `earlier` has to change to become `current`. */
  ghost predicate LeadsTo(earlier: real, change: real, current: real) {
    if earlier > 0.0 then earlier + change / 100.0 * earlier == current
    else if earlier < 0.0 then earlier - change / 100.0 * earlier == current
    else change == 0.0
  }

  lemma PercentLeads(earlier: real, current: real)
    ensures LeadsTo(earlier, PercentChange(earlier, current), current)
  {
    PercentChangeMeaning(earlier, current);
  }

  lemma ChangesLead(h: seq<real>, windows: seq<nat>, capacity: nat, w: nat)
    ensures var changes := TrueChanges(h, windows, capacity);
            (w in changes <==> w in windows && w < |h| && w < capacity) &&
            (w in changes ==> LeadsTo(h[|h| - 1 - w], changes[w], h[|h| - 1]))
  {
    if w < |h| { PercentLeads(h[|h| - 1 - w], h[|h| - 1]); }
  }

  lemma WindowsAreNewest(h: seq<real>, windows: seq<nat>, capacity: nat, w: nat)
    ensures var rolling := TrueWindows(h, windows, capacity);
            (w in rolling <==> w in windows && w <= |h| && capacity > 0) &&
            (w in rolling ==> Newest(h, rolling[w], w, capacity))
  {
  }

  /**
   What the promise comes to: the latest value, the newest values of every window the
   history fills, and the percentage from the value `w` readings ago to the latest one for
   every distance that the history reaches back and the deque can hold.
  */
  lemma PromiseMeans(h: seq<real>, c: Config, w: nat)
    requires c.rollingWindows != [] && h != []
    ensures var f := Promised(h, c);
            f.current == h[|h| - 1] &&
            (w in f.rolling <==> w in c.rollingWindows && w <= |h| && Max(c.rollingWindows) > 0) &&
            (w in f.rolling ==> Newest(h, f.rolling[w], w, Max(c.rollingWindows))) &&
            (w in f.roc <==> c.rocEnabled && w in c.rocWindows && w < |h| && w < Max(c.rollingWindows)) &&
            (w in f.roc ==> LeadsTo(h[|h| - 1 - w], f.roc[w], h[|h| - 1]))
  {
    WindowsAreNewest(h, c.rollingWindows, Max(c.rollingWindows), w);
    ChangesLead(h, if c.rocEnabled then c.rocWindows else [], Max(c.rollingWindows), w);
  }

  /** The rolling-window loop of `extract_features` for one sensor; an empty window yields no statistics. */
  method RollingWindows(buffer: seq<real>, windows: seq<nat>) returns (rolling: map<nat, seq<real>>)
    ensures forall w: nat :: w in rolling <==> w in windows && w <= |buffer| && buffer != []
    ensures forall w: nat :: w in rolling ==> rolling[w] == LastOf(buffer, w)
  {
    rolling := map[];
    for i := 0 to |windows|
      invariant forall w: nat :: w in rolling <==> w in windows[..i] && w <= |buffer| && buffer != []
      invariant forall w: nat :: w in rolling ==> rolling[w] == LastOf(buffer, w)
    {
      var window := windows[i];
      assert windows[..i + 1] == windows[..i] + [window];
      if |buffer| >= window {
        var windowData := LastOf(buffer, window);
        if windowData != [] {
          rolling := rolling[window := windowData];
        }
      }
    }
    assert windows[..|windows|] == windows;
  }

  /** `_compute_rate_of_change`. */
  method ComputeRateOfChange(buffer: seq<real>, windows: seq<nat>) returns (roc: map<nat, real>)
    ensures forall w: nat :: w in roc <==> w in windows && w + 1 <= |buffer|
    ensures forall w: nat :: w in roc ==> roc[w] == PercentChange(buffer[|buffer| - 1 - w], buffer[|buffer| - 1])
  {
    roc := map[];
    for i := 0 to |windows|
      invariant forall w: nat :: w in roc <==> w in windows[..i] && w + 1 <= |buffer|
      invariant forall w: nat :: w in roc ==> roc[w] == PercentChange(buffer[|buffer| - 1 - w], buffer[|buffer| - 1])
    {
      var window := windows[i];
      assert windows[..i + 1] == windows[..i] + [window];
      if |buffer| >= window + 1 {
        roc := roc[window := PercentChange(buffer[|buffer| - (window + 1)], buffer[|buffer| - 1])];
      }
    }
    assert windows[..|windows|] == windows;
  }

  /** Windows taken from the buffer are those of the whole history. */
  lemma BufferWindowsAreTrue(rolling: map<nat, seq<real>>, h: seq<real>, windows: seq<nat>)
    requires windows != [] && h != []
    requires var buffer := Suffix(h, Max(windows));
             (forall w: nat :: w in rolling <==> w in windows && w <= |buffer| && buffer != []) &&
             (forall w: nat :: w in rolling ==> rolling[w] == LastOf(buffer, w))
    ensures rolling == TrueWindows(h, windows, Max(windows))
  {
    var capacity := Max(windows);
    forall w: nat | w in windows
      ensures w <= |Suffix(h, capacity)| <==> w <= |h|
      ensures w <= |h| ==> LastOf(Suffix(h, capacity), w) == if w == 0 then Suffix(h, capacity) else h[|h| - w..]
    {
      WindowOfBuffer(h, capacity, w);
    }
  }

  lemma BufferChangesAreTrue(roc: map<nat, real>, h: seq<real>, windows: seq<nat>, capacity: nat)
    requires var buffer := Suffix(h, capacity);
             (forall w: nat :: w in roc <==> w in windows && w + 1 <= |buffer|) &&
             (forall w: nat :: w in roc ==> roc[w] == PercentChange(buffer[|buffer| - 1 - w], buffer[|buffer| - 1]))
    ensures roc == TrueChanges(h, windows, capacity)
  {
  }

  /** Exactly the numeric sensors among `names` get features, those their whole history promises. */
  ghost predicate Answers(features: map<string, SensorFeatures>, log: seq<Event>, equipment: string, c: Config,
                          names: seq<string>, data: map<string, Reading>)
    requires c.rollingWindows != []
  {
    (forall s: string :: s in features <==> s in names && s in data && data[s].Numeric?) &&
    (forall s: string :: s in features ==>
       History(log, equipment, s) != [] && features[s] == Promised(History(log, equipment, s), c))
  }

  /** A reading of one sensor leaves what was said about the others in place. */
  lemma AnswersAfter(features: map<string, SensorFeatures>, log: seq<Event>, equipment: string, c: Config,
                     names: seq<string>, data: map<string, Reading>, sensor: string, f: SensorFeatures)
    requires c.rollingWindows != [] && Answers(features, log, equipment, c, names, data)
    requires sensor in data && data[sensor].Numeric?
    requires var h := History(log + [Sample(equipment, sensor, data[sensor].value)], equipment, sensor);
             h != [] && f == Promised(h, c)
    ensures Answers(features[sensor := f], log + [Sample(equipment, sensor, data[sensor].value)], equipment, c,
                    names + [sensor], data)
  {
    var event := Sample(equipment, sensor, data[sensor].value);
    forall s: string | s != sensor ensures History(log + [event], equipment, s) == History(log, equipment, s) {
      HistoryStep(log, event, equipment, s);
    }
  }

  lemma AnswersWithout(features: map<string, SensorFeatures>, log: seq<Event>, equipment: string, c: Config,
                       names: seq<string>, data: map<string, Reading>, sensor: string)
    requires c.rollingWindows != [] && Answers(features, log, equipment, c, names, data)
    requires sensor !in data || !data[sensor].Numeric?
    ensures Answers(features, log, equipment, c, names + [sensor], data)
  {
  }

  class TimeDomainFeatures {
    const config: Config
    var rollingBuffers: Buffers
    ghost var log: seq<Event>

    ghost predicate Valid()
      reads this
    {
      config.rollingWindows != [] && Tracks(rollingBuffers, log, Max(config.rollingWindows))
    }

    constructor (config: Config)
      requires config.rollingWindows != []
      ensures Valid() && this.config == config && log == []
    {
      this.config := config;
      rollingBuffers, log := map[], [];
    }

    /** `buffer.append(value)` on the deque of one sensor. */
    method Append(equipment: string, sensor: string, value: real) returns (buffer: seq<real>)
      requires Valid()
      modifies this
      ensures Valid() && log == old(log) + [Sample(equipment, sensor, value)]
      ensures History(log, equipment, sensor) == old(History(log, equipment, sensor)) + [value]
      ensures buffer == Suffix(History(log, equipment, sensor), Max(config.rollingWindows))
    {
      var capacity := Max(config.rollingWindows);
      TracksAfterSample(rollingBuffers, log, capacity, equipment, sensor, value);
      HistoryStep(log, Sample(equipment, sensor, value), equipment, sensor);
      buffer := Suffix(Buffered(rollingBuffers, equipment, sensor) + [value], capacity);
      rollingBuffers := Stored(rollingBuffers, equipment, sensor, buffer);
      log := log + [Sample(equipment, sensor, value)];
      assert buffer == Buffered(rollingBuffers, equipment, sensor);
    }

    method Changes(buffer: seq<real>, ghost h: seq<real>, ghost capacity: nat) returns (roc: map<nat, real>)
      requires buffer == Suffix(h, capacity)
      ensures roc == TrueChanges(h, if config.rocEnabled then config.rocWindows else [], capacity)
    {
      roc := map[];
      if config.rocEnabled {
        roc := ComputeRateOfChange(buffer, config.rocWindows);
        BufferChangesAreTrue(roc, h, config.rocWindows, capacity);
      } else {
        BufferChangesAreTrue(roc, h, [], capacity);
      }
    }

    /** The features of a deque that ends with the current value. */
    method FromBuffer(buffer: seq<real>, value: real, ghost history: seq<real>) returns (f: SensorFeatures)
      requires config.rollingWindows != [] && buffer == Suffix(history + [value], Max(config.rollingWindows))
      ensures f == Promised(history + [value], config)
    {
      ghost var h, capacity := history + [value], Max(config.rollingWindows);
      var rolling := RollingWindows(buffer, config.rollingWindows);
      BufferWindowsAreTrue(rolling, h, config.rollingWindows);
      var roc := Changes(buffer, h, capacity);
      f := SensorFeatures(value, rolling, roc);
    }

    /** One numeric reading: into the deque, then out again as features. */
    method ProcessSensor(equipment: string, sensor: string, value: real) returns (f: SensorFeatures)
      requires Valid()
      modifies this
      ensures Valid() && log == old(log) + [Sample(equipment, sensor, value)]
      ensures History(log, equipment, sensor) != [] && f == Promised(History(log, equipment, sensor), config)
    {
      ghost var history := History(log, equipment, sensor);
      var buffer := Append(equipment, sensor, value);
      f := FromBuffer(buffer, value, history);
    }

    /**
     `extract_features`: `names` is the dictionary's own order. Exactly the numeric
     sensors get features, each those its whole history since the last clear promises.
    */
    method ExtractFeatures(equipment: string, names: seq<string>, data: map<string, Reading>)
      returns (features: map<string, SensorFeatures>)
      requires Valid()
      modifies this
      ensures Valid() && log == old(log) + Samples(equipment, names, data)
      ensures Answers(features, log, equipment, config, names, data)
    {
      features := map[];
      Introduce(equipment);
      ghost var start := log;
      assert log == start + [];
      for i := 0 to |names|
        invariant Valid() && log == start + Samples(equipment, names[..i], data)
        invariant Answers(features, log, equipment, config, names[..i], data)
      {
        features := ProcessNamed(equipment, names, i, data, features);
        LogAfterNext(start, equipment, names, i, data);
      }
      assert names[..|names|] == names;
    }

    /** An equipment seen for the first time starts without deques. */
    method Introduce(equipment: string)
      requires Valid()
      modifies this`rollingBuffers
      ensures Valid() && equipment in rollingBuffers
    {
      if equipment !in rollingBuffers {
        rollingBuffers := rollingBuffers[equipment := map[]];
      }
    }

    /** The body of the sensor loop: anything but a number is skipped. */
    method ProcessNamed(equipment: string, names: seq<string>, i: nat, data: map<string, Reading>,
                        before: map<string, SensorFeatures>) returns (features: map<string, SensorFeatures>)
      requires Valid() && i < |names|
      requires Answers(before, log, equipment, config, names[..i], data)
      modifies this
      ensures Valid() && Answers(features, log, equipment, config, names[..i + 1], data)
      ensures log == LogAfter(old(log), equipment, names[i], data)
    {
      var sensor := names[i];
      assert names[..i + 1] == names[..i] + [sensor];
      if sensor in data && data[sensor].Numeric? {
        var f := ProcessSensor(equipment, sensor, data[sensor].value);
        AnswersAfter(before, old(log), equipment, config, names[..i], data, sensor, f);
        features := before[sensor := f];
      } else {
        AnswersWithout(before, log, equipment, config, names[..i], data, sensor);
        features := before;
      }
    }

    /** `clear_buffer`. */
    method ClearBuffer(equipment: string)
      requires Valid()
      modifies this
      ensures Valid() && log == old(log) + [Cleared(equipment)]
      ensures equipment !in rollingBuffers
    {
      TracksAfterClear(rollingBuffers, log, Max(config.rollingWindows), equipment);
      log := log + [Cleared(equipment)];
      if equipment in rollingBuffers {
        rollingBuffers := rollingBuffers - {equipment};
      } else {
        assert rollingBuffers - {equipment} == rollingBuffers;
      }
    }
  }
}
