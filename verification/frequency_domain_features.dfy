/** Frequency-domain features: one trimmed list per target sensor, and the slice each transform is given. */
module FrequencyDomain {
  import opened Common
  import opened SensorLog

  /** The sensors a dictionary gives a number for, among the first targets. */
  predicate Targeted(s: string, targets: seq<string>, data: map<string, Reading>) {
    s in targets && s in data && data[s].Numeric?
  }

  /** The true last window of a series, once it is long enough. */
  function LastWindow(h: seq<real>, w: nat): Option<seq<real>> {
    if w <= |h| then Some(h[|h| - w..]) else None
  }

  /** `slice` holds the newest `w` values, one by one, and the last of them is `value`. */
  ghost predicate EndsWith(h: seq<real>, slice: seq<real>, w: nat, value: real) {
    1 <= w == |slice| <= |h| && (forall k :: 0 <= k < w ==> slice[k] == h[|h| - w + k]) && slice[w - 1] == value
  }

  lemma NewestValues(h: seq<real>, w: nat)
    requires h != [] && w >= 1
    ensures LastWindow(h, w).Some? <==> |h| >= w
    ensures LastWindow(h, w).Some? ==> EndsWith(h, LastWindow(h, w).value, w, h[|h| - 1])
  {
  }

  /** What the slices are: the newest values of the sensors that have reported often enough, with the latest last. */
  lemma WindowsMean(slices: map<string, seq<real>>, log: seq<Event>, equipment: string, targets: seq<string>,
                    data: map<string, Reading>, w: nat)
    requires w >= 1 && TrueWindows(slices, log + Samples(equipment, targets, data), equipment, targets, data, w)
    ensures var now := log + Samples(equipment, targets, data);
            (forall s :: s in slices <==>
               s in targets && s in data && data[s].Numeric? && |History(now, equipment, s)| >= w) &&
            (forall s <- slices ::
               s in data && data[s].Numeric? && EndsWith(History(now, equipment, s), slices[s], w, data[s].value))
  {
    var now := log + Samples(equipment, targets, data);
    forall s
      ensures s in slices <==>
                s in targets && s in data && data[s].Numeric? && |History(now, equipment, s)| >= w
      ensures s in slices ==>
                s in data && data[s].Numeric? && EndsWith(History(now, equipment, s), slices[s], w, data[s].value)
    {
      assert Slice(slices, s) ==
        if Targeted(s, targets, data) then LastWindow(History(now, equipment, s), w) else None;
      if Targeted(s, targets, data) {
        EndsWithReading(log, equipment, targets, data, s);
        NewestValues(History(now, equipment, s), w);
      }
    }
  }

  /** The list of two windows' length gives the same last window as the whole history. */
  lemma TrimmedSuffices(h: seq<real>, w: nat)
    ensures LastWindow(Suffix(h, w * 2), w) == LastWindow(h, w)
  {
    WindowOfBuffer(h, w * 2, w);
  }

  function Slice(slices: map<string, seq<real>>, s: string): Option<seq<real>> {
    if s in slices then Some(slices[s]) else None
  }

  /** Exactly the targeted sensors with a full window behind them are transformed, on their true last window. */
  ghost predicate TrueWindows(slices: map<string, seq<real>>, log: seq<Event>, equipment: string,
                              targets: seq<string>, data: map<string, Reading>, windowSize: nat)
  {
    forall s: string :: Slice(slices, s) ==
      if Targeted(s, targets, data) then LastWindow(History(log, equipment, s), windowSize) else None
  }

  /** A target may be listed twice; its later slice then replaces the earlier one. */
  lemma TrueWindowsAfter(slices: map<string, seq<real>>, log: seq<Event>, equipment: string, targets: seq<string>,
                         data: map<string, Reading>, windowSize: nat, sensor: string)
    requires sensor in data && data[sensor].Numeric?
    requires TrueWindows(slices, log, equipment, targets, data, windowSize)
    ensures var log' := log + [Sample(equipment, sensor, data[sensor].value)];
            var slice := LastWindow(History(log', equipment, sensor), windowSize);
            TrueWindows(if slice.Some? then slices[sensor := slice.value] else slices,
                        log', equipment, targets + [sensor], data, windowSize)
  {
    var event := Sample(equipment, sensor, data[sensor].value);
    var slice := LastWindow(History(log + [event], equipment, sensor), windowSize);
    var after := if slice.Some? then slices[sensor := slice.value] else slices;
    forall s: string
      ensures Slice(after, s) ==
        if Targeted(s, targets + [sensor], data) then LastWindow(History(log + [event], equipment, s), windowSize)
        else None
    {
      HistoryStep(log, event, equipment, s);
      assert Slice(slices, s) ==
        if Targeted(s, targets, data) then LastWindow(History(log, equipment, s), windowSize) else None;
    }
  }

  lemma TrueWindowsWithout(slices: map<string, seq<real>>, log: seq<Event>, equipment: string, targets: seq<string>,
                           data: map<string, Reading>, windowSize: nat, sensor: string)
    requires TrueWindows(slices, log, equipment, targets, data, windowSize)
    requires sensor !in data || !data[sensor].Numeric?
    ensures TrueWindows(slices, log, equipment, targets + [sensor], data, windowSize)
  {
    forall s: string ensures Targeted(s, targets + [sensor], data) <==> Targeted(s, targets, data) {
    }
  }

  /** Keep only the last `n` values. */
  method Trim(buffer: seq<real>, n: nat) returns (r: seq<real>)
    ensures r == Suffix(buffer, n)
  {
    r := buffer;
    if |buffer| > n {
      r := buffer[|buffer| - n..];
    }
  }

  class FrequencyDomainFeatures {
    const windowSize: nat
    const targetSensors: seq<string>
    var signalBuffers: Buffers
    ghost var log: seq<Event>

    ghost predicate Valid()
      reads this
    {
      windowSize >= 1 && Tracks(signalBuffers, log, windowSize * 2)
    }

    constructor (windowSize: nat, targetSensors: seq<string>)
      requires windowSize >= 1
      ensures Valid() && log == []
      ensures this.windowSize == windowSize && this.targetSensors == targetSensors
    {
      this.windowSize, this.targetSensors := windowSize, targetSensors;
      signalBuffers, log := map[], [];
    }

    /** The list of a target after a reading: appended to, and trimmed to two windows. */
    method Append(equipment: string, sensor: string, value: real) returns (buffer: seq<real>)
      requires Valid()
      modifies this
      ensures Valid() && log == old(log) + [Sample(equipment, sensor, value)]
      ensures History(log, equipment, sensor) == old(History(log, equipment, sensor)) + [value]
      ensures buffer == Suffix(History(log, equipment, sensor), windowSize * 2)
    {
      TracksAfterSample(signalBuffers, log, windowSize * 2, equipment, sensor, value);
      HistoryStep(log, Sample(equipment, sensor, value), equipment, sensor);
      buffer := Trim(Buffered(signalBuffers, equipment, sensor) + [value], windowSize * 2);
      signalBuffers := Stored(signalBuffers, equipment, sensor, buffer);
      log := log + [Sample(equipment, sensor, value)];
      assert buffer == Buffered(signalBuffers, equipment, sensor);
    }

    /** One numeric reading of a target: append, trim to two windows, and slice the last one off if there is one. */
    method ProcessSensor(equipment: string, sensor: string, value: real) returns (slice: Option<seq<real>>)
      requires Valid()
      modifies this
      ensures Valid() && log == old(log) + [Sample(equipment, sensor, value)]
      ensures slice == LastWindow(History(log, equipment, sensor), windowSize)
      ensures slice.Some? <==> |History(log, equipment, sensor)| >= windowSize
      ensures slice.Some? ==> EndsWith(History(log, equipment, sensor), slice.value, windowSize, value)
    {
      var buffer := Append(equipment, sensor, value);
      TrimmedSuffices(History(log, equipment, sensor), windowSize);
      NewestValues(History(log, equipment, sensor), windowSize);
      slice := LastWindow(buffer, windowSize);
    }

    /** `extract_features`, with the slices handed to the transform as its result. */
    method ExtractFeatures(equipment: string, data: map<string, Reading>) returns (slices: map<string, seq<real>>)
      requires Valid()
      modifies this
      ensures Valid() && log == old(log) + Samples(equipment, targetSensors, data)
      ensures TrueWindows(slices, log, equipment, targetSensors, data, windowSize)
      ensures forall s :: s in slices <==>
                s in targetSensors && s in data && data[s].Numeric? && |History(log, equipment, s)| >= windowSize
      ensures forall s <- slices ::
                s in data && data[s].Numeric? &&
                EndsWith(History(log, equipment, s), slices[s], windowSize, data[s].value)
    {
      slices := map[];
      if equipment !in signalBuffers {
        signalBuffers := signalBuffers[equipment := map[]];
      }
      assert log == old(log) + [];
      for i := 0 to |targetSensors|
        invariant Valid() && log == old(log) + Samples(equipment, targetSensors[..i], data)
        invariant TrueWindows(slices, log, equipment, targetSensors[..i], data, windowSize)
      {
        slices := ProcessTarget(equipment, i, data, slices);
        LogAfterNext(old(log), equipment, targetSensors, i, data);
      }
      assert targetSensors[..|targetSensors|] == targetSensors;
      WindowsMean(slices, old(log), equipment, targetSensors, data, windowSize);
    }

    /** The body of the sensor loop: a target that is missing or not a number is skipped. */
    method ProcessTarget(equipment: string, i: nat, data: map<string, Reading>, before: map<string, seq<real>>)
      returns (slices: map<string, seq<real>>)
      requires Valid() && i < |targetSensors|
      requires TrueWindows(before, log, equipment, targetSensors[..i], data, windowSize)
      modifies this
      ensures Valid() && TrueWindows(slices, log, equipment, targetSensors[..i + 1], data, windowSize)
      ensures log == LogAfter(old(log), equipment, targetSensors[i], data)
    {
      slices := before;
      var sensor := targetSensors[i];
      assert targetSensors[..i + 1] == targetSensors[..i] + [sensor];
      if sensor in data && data[sensor].Numeric? {
        TrueWindowsAfter(before, log, equipment, targetSensors[..i], data, windowSize, sensor);
        var slice := ProcessSensor(equipment, sensor, data[sensor].value);
        if slice.Some? {
          slices := slices[sensor := slice.value];
        }
      } else {
        TrueWindowsWithout(before, log, equipment, targetSensors[..i], data, windowSize, sensor);
      }
    }

    /** `clear_buffer`. */
    method ClearBuffer(equipment: string)
      requires Valid()
      modifies this
      ensures Valid() && log == old(log) + [Cleared(equipment)]
      ensures equipment !in signalBuffers
    {
      TracksAfterClear(signalBuffers, log, windowSize * 2, equipment);
      log := log + [Cleared(equipment)];
      if equipment in signalBuffers {
        signalBuffers := signalBuffers - {equipment};
      } else {
        assert signalBuffers - {equipment} == signalBuffers;
      }
    }
  }
}
