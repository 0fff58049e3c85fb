/** What the feature extractors have been given so far, and how their bounded buffers stand for it. */
module SensorLog {
  import opened Common

  /** A value in a sensor dictionary: a number, or anything else. */
  datatype Reading = Numeric(value: real) | Other

  datatype Event =
    | Sample(equipment: string, sensor: string, value: real)
    | Cleared(equipment: string)

  /** `Dict[equipment, Dict[sensor, buffer]]`. */
  type Buffers = map<string, map<string, seq<real>>>

  function Buffered(b: Buffers, equipment: string, sensor: string): seq<real> {
    if equipment in b && sensor in b[equipment] then b[equipment][sensor] else []
  }

  function Stored(b: Buffers, equipment: string, sensor: string, buffer: seq<real>): Buffers {
    b[equipment := (if equipment in b then b[equipment] else map[])[sensor := buffer]]
  }

  /** What one event does to a history. */
  function Extended(before: seq<real>, event: Event, equipment: string, sensor: string): seq<real> {
    match event
    case Sample(e, s, v) => if e == equipment && s == sensor then before + [v] else before
    case Cleared(e) => if e == equipment then [] else before
  }

  /** All numbers one sensor has reported since its equipment was last cleared. */
  function History(log: seq<Event>, equipment: string, sensor: string): seq<real> {
    if log == [] then []
    else Extended(History(log[..|log| - 1], equipment, sensor), log[|log| - 1], equipment, sensor)
  }

  /** The samples one dictionary adds when the sensors `names` are visited in order. */
  function Samples(equipment: string, names: seq<string>, data: map<string, Reading>): seq<Event> {
    if names == [] then [] else
    var before, name := Samples(equipment, names[..|names| - 1], data), names[|names| - 1];
    if name in data && data[name].Numeric? then before + [Sample(equipment, name, data[name].value)] else before
  }

  /** The log after visiting one sensor. */
  function LogAfter(log: seq<Event>, equipment: string, name: string, data: map<string, Reading>): seq<Event> {
    if name in data && data[name].Numeric? then log + [Sample(equipment, name, data[name].value)] else log
  }

  lemma LogAfterNext(log: seq<Event>, equipment: string, names: seq<string>, i: nat, data: map<string, Reading>)
    requires i < |names|
    ensures LogAfter(log + Samples(equipment, names[..i], data), equipment, names[i], data)
         == log + Samples(equipment, names[..i + 1], data)
  {
    assert names[..i + 1][..i] == names[..i];
  }

  /** Every buffer is the end of its sensor's whole history. */
  ghost predicate Tracks(b: Buffers, log: seq<Event>, capacity: nat) {
    forall e: string, s: string :: Buffered(b, e, s) == Suffix(History(log, e, s), capacity)
  }

  lemma HistoryStep(log: seq<Event>, event: Event, equipment: string, sensor: string)
    ensures History(log + [event], equipment, sensor)
         == Extended(History(log, equipment, sensor), event, equipment, sensor)
  {
    assert (log + [event])[..|log|] == log;
  }

  lemma BufferedAfterStore(b: Buffers, equipment: string, sensor: string, buffer: seq<real>, e: string, s: string)
    ensures Buffered(Stored(b, equipment, sensor, buffer), e, s)
         == if e == equipment && s == sensor then buffer else Buffered(b, e, s)
  {
  }

  lemma TracksAfterSample(b: Buffers, log: seq<Event>, capacity: nat, equipment: string, sensor: string, v: real)
    requires Tracks(b, log, capacity)
    ensures Tracks(Stored(b, equipment, sensor, Suffix(Buffered(b, equipment, sensor) + [v], capacity)),
                   log + [Sample(equipment, sensor, v)], capacity)
  {
    var event := Sample(equipment, sensor, v);
    var buffer := Suffix(Buffered(b, equipment, sensor) + [v], capacity);
    var stored := Stored(b, equipment, sensor, buffer);
    forall e: string, s: string
      ensures Buffered(stored, e, s) == Suffix(History(log + [event], e, s), capacity)
    {
      BufferedAfterStore(b, equipment, sensor, buffer, e, s);
      HistoryStep(log, event, e, s);
      assert Buffered(b, e, s) == Suffix(History(log, e, s), capacity);
      SuffixAppend(History(log, e, s), v, capacity);
    }
  }

  lemma TracksAfterClear(b: Buffers, log: seq<Event>, capacity: nat, equipment: string)
    requires Tracks(b, log, capacity)
    ensures Tracks(b - {equipment}, log + [Cleared(equipment)], capacity)
  {
    forall e: string, s: string
      ensures Buffered(b - {equipment}, e, s) == Suffix(History(log + [Cleared(equipment)], e, s), capacity)
    {
      HistoryStep(log, Cleared(equipment), e, s);
      assert Buffered(b, e, s) == Suffix(History(log, e, s), capacity);
    }
  }

  function OfEquipment(log: seq<Event>, equipment: string): seq<Event> {
    if log == [] then [] else
    var before, event := OfEquipment(log[..|log| - 1], equipment), log[|log| - 1];
    if event.equipment == equipment then before + [event] else before
  }

  /** Equipment never affect each other: a history is a function of that equipment's own events. */
  lemma {:induction false} OwnEventsOnly(log: seq<Event>, equipment: string, sensor: string)
    ensures History(log, equipment, sensor) == History(OfEquipment(log, equipment), equipment, sensor)
  {
    if log != [] {
      var before, event := log[..|log| - 1], log[|log| - 1];
      OwnEventsOnly(before, equipment, sensor);
      HistoryStep(OfEquipment(before, equipment), event, equipment, sensor);
    }
  }

  lemma LastNameRead(log: seq<Event>, equipment: string, names: seq<string>, data: map<string, Reading>, s: string)
    requires names != []
    ensures var n := |names| - 1;
            var before := History(log + Samples(equipment, names[..n], data), equipment, s);
            History(log + Samples(equipment, names, data), equipment, s) ==
            if names[n] == s && s in data && data[s].Numeric? then before + [data[s].value] else before
  {
    var n := |names| - 1;
    var before := Samples(equipment, names[..n], data);
    if names[n] in data && data[names[n]].Numeric? {
      var event := Sample(equipment, names[n], data[names[n]].value);
      HistoryStep(log + before, event, equipment, s);
      assert log + (before + [event]) == (log + before) + [event];
    }
  }

  /** After a dictionary the history of each of its numeric sensors ends with the value it gave. */
  lemma {:induction false} EndsWithReading(log: seq<Event>, equipment: string, names: seq<string>,
                                           data: map<string, Reading>, s: string)
    requires s in names && s in data && data[s].Numeric?
    ensures var h := History(log + Samples(equipment, names, data), equipment, s);
            h != [] && h[|h| - 1] == data[s].value
  {
    var n := |names| - 1;
    LastNameRead(log, equipment, names, data, s);
    if names[n] != s {
      assert s in names[..n];
      EndsWithReading(log, equipment, names[..n], data, s);
    }
  }

  /** One dictionary gives each of its numeric sensors exactly one new value, and touches no other history. */
  lemma {:induction false} OneValueEach(log: seq<Event>, equipment: string, names: seq<string>,
                                        data: map<string, Reading>, e: string, s: string)
    requires forall i, j :: 0 <= i < j < |names| ==> names[i] != names[j]
    ensures History(log + Samples(equipment, names, data), e, s)
         == if e == equipment && s in names && s in data && data[s].Numeric? then History(log, e, s) + [data[s].value]
            else History(log, e, s)
  {
    if names == [] {
      assert log + [] == log;
    } else {
      var n := |names| - 1;
      var before := Samples(equipment, names[..n], data);
      OneValueEach(log, equipment, names[..n], data, e, s);
      assert s in names <==> s in names[..n] || s == names[n];
      if names[n] in data && data[names[n]].Numeric? {
        var event := Sample(equipment, names[n], data[names[n]].value);
        HistoryStep(log + before, event, e, s);
        assert log + (before + [event]) == (log + before) + [event];
      }
    }
  }

  /** A window that fits the buffer's capacity sees the true last values, as soon as there are enough of them. */
  lemma WindowOfBuffer(h: seq<real>, capacity: nat, w: nat)
    requires w <= capacity
    ensures w <= |Suffix(h, capacity)| <==> w <= |h|
    ensures w <= |h| ==> Suffix(h, capacity)[|Suffix(h, capacity)| - w..] == h[|h| - w..]
  {
  }
}
