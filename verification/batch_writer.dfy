/** The batching database writer: two buffers, flushed by size or on demand, with commits that may fail. */
module BatchWriter {
  import opened Arithmetic

  datatype SensorReading = SensorReading(time: int, equipment: string, sensorData: string)

  datatype FeatureRow = FeatureRow(time: int, equipment: string, featureSet: string, features: string)

  /** What became of the rows of one table; a commit that fails leaves nothing behind. */
  datatype Ledger<Row> = Ledger(committed: seq<Row>, commits: nat, failures: nat, onDemand: nat)

  /** The state of one table after an attempt to flush its buffer. */
  function FlushedLedger<Row>(l: Ledger<Row>, buffer: seq<Row>, ok: bool): Ledger<Row> {
    if buffer == [] then l
    else if ok then l.(committed := l.committed + buffer, commits := l.commits + 1)
    else l.(failures := l.failures + 1)
  }

  function OnDemand<Row>(l: Ledger<Row>): Ledger<Row> {
    l.(onDemand := l.onDemand + 1)
  }

  /**
   Committed rows followed by buffered rows are all rows written, in order; and as long
   as no commit failed and nobody flushed on demand, the commits and the buffer are the
   quotient and the remainder of the number of rows by the batch size.
  */
  ghost predicate Delivered<Row>(written: seq<Row>, l: Ledger<Row>, buffer: seq<Row>, batchSize: int) {
    written == l.committed + buffer &&
    (l.failures == 0 && l.onDemand == 0 && batchSize >= 1 ==>
      |written| == l.commits * batchSize + |buffer| && |buffer| < batchSize)
  }

  /** The arithmetic reading of the invariant. */
  lemma CommitsAreQuotient<Row>(written: seq<Row>, l: Ledger<Row>, buffer: seq<Row>, batchSize: int)
    requires Delivered(written, l, buffer, batchSize) && l.failures == 0 && l.onDemand == 0 && batchSize >= 1
    ensures l.commits == |written| / batchSize && |buffer| == |written| % batchSize
  {
    FloorUnique(|written|, batchSize, l.commits);
  }

  lemma DeliveredAfterWrite<Row>(written: seq<Row>, l: Ledger<Row>, buffer: seq<Row>, batchSize: int,
                                 row: Row, ok: bool)
    requires Delivered(written, l, buffer, batchSize)
    ensures var full := buffer + [row];
            if |full| < batchSize then Delivered(written + [row], l, full, batchSize)
            else Delivered(written + [row], FlushedLedger(l, full, ok), if ok then [] else full, batchSize)
  {
    var full := buffer + [row];
    assert (l.committed + buffer) + [row] == l.committed + full;
    if |full| >= batchSize {
      assert (l.committed + full) + [] == l.committed + full;
      MulSuccessor(l.commits, batchSize);
    }
  }

  lemma DeliveredAfterFlush<Row>(written: seq<Row>, l: Ledger<Row>, buffer: seq<Row>, batchSize: int, ok: bool)
    requires Delivered(written, l, buffer, batchSize)
    ensures Delivered(written, FlushedLedger(OnDemand(l), buffer, ok), if ok then [] else buffer, batchSize)
  {
    assert (l.committed + buffer) + [] == l.committed + buffer;
  }

  class TimescaleDBWriter {
    const batchSize: int
    var sensorReadingsBuffer: seq<SensorReading>
    var engineeredFeaturesBuffer: seq<FeatureRow>

    ghost var readingsWritten: seq<SensorReading>
    ghost var featuresWritten: seq<FeatureRow>
    ghost var readings: Ledger<SensorReading>
    ghost var features: Ledger<FeatureRow>

    constructor (batchSize: int)
      ensures Valid() && this.batchSize == batchSize && readingsWritten == [] && featuresWritten == []
    {
      this.batchSize := batchSize;
      sensorReadingsBuffer, engineeredFeaturesBuffer := [], [];
      readingsWritten, featuresWritten := [], [];
      readings, features := Ledger([], 0, 0, 0), Ledger([], 0, 0, 0);
    }

    ghost predicate Valid()
      reads this
    {
      Delivered(readingsWritten, readings, sensorReadingsBuffer, batchSize) &&
      Delivered(featuresWritten, features, engineeredFeaturesBuffer, batchSize)
    }

    /** `flush_sensor_readings`; `ok` tells whether the database accepts the commit. */
    method FlushSensorReadings(ok: bool)
      modifies this`sensorReadingsBuffer, this`readings
      ensures readings == FlushedLedger(old(readings), old(sensorReadingsBuffer), ok)
      ensures sensorReadingsBuffer == if ok then [] else old(sensorReadingsBuffer)
    {
      if sensorReadingsBuffer == [] {
        return;
      }
      readings := FlushedLedger(readings, sensorReadingsBuffer, ok);
      if ok {
        sensorReadingsBuffer := [];
      }
    }

    method FlushEngineeredFeatures(ok: bool)
      modifies this`engineeredFeaturesBuffer, this`features
      ensures features == FlushedLedger(old(features), old(engineeredFeaturesBuffer), ok)
      ensures engineeredFeaturesBuffer == if ok then [] else old(engineeredFeaturesBuffer)
    {
      if engineeredFeaturesBuffer == [] {
        return;
      }
      features := FlushedLedger(features, engineeredFeaturesBuffer, ok);
      if ok {
        engineeredFeaturesBuffer := [];
      }
    }

    /** `write_sensor_reading`: a full buffer is flushed at once, and again on every later write while commits fail. */
    method WriteSensorReading(row: SensorReading, ok: bool)
      requires Valid()
      modifies this`sensorReadingsBuffer, this`readings, this`readingsWritten
      ensures Valid() && readingsWritten == old(readingsWritten) + [row]
      ensures var full := old(sensorReadingsBuffer) + [row];
              if |full| < batchSize then readings == old(readings) && sensorReadingsBuffer == full
              else readings == FlushedLedger(old(readings), full, ok) &&
                   sensorReadingsBuffer == if ok then [] else full
    {
      DeliveredAfterWrite(readingsWritten, readings, sensorReadingsBuffer, batchSize, row, ok);
      readingsWritten := readingsWritten + [row];
      sensorReadingsBuffer := sensorReadingsBuffer + [row];
      if |sensorReadingsBuffer| >= batchSize {
        FlushSensorReadings(ok);
      }
    }

    method WriteEngineeredFeatures(row: FeatureRow, ok: bool)
      requires Valid()
      modifies this`engineeredFeaturesBuffer, this`features, this`featuresWritten
      ensures Valid() && featuresWritten == old(featuresWritten) + [row]
      ensures var full := old(engineeredFeaturesBuffer) + [row];
              if |full| < batchSize then features == old(features) && engineeredFeaturesBuffer == full
              else features == FlushedLedger(old(features), full, ok) &&
                   engineeredFeaturesBuffer == if ok then [] else full
    {
      DeliveredAfterWrite(featuresWritten, features, engineeredFeaturesBuffer, batchSize, row, ok);
      featuresWritten := featuresWritten + [row];
      engineeredFeaturesBuffer := engineeredFeaturesBuffer + [row];
      if |engineeredFeaturesBuffer| >= batchSize {
        FlushEngineeredFeatures(ok);
      }
    }

    /** `flush_all`, from the timer or at shutdown: two independent commits. */
    method FlushAll(readingsOk: bool, featuresOk: bool)
      requires Valid()
      modifies this`sensorReadingsBuffer, this`readings, this`engineeredFeaturesBuffer, this`features
      ensures Valid()
      ensures readings == FlushedLedger(OnDemand(old(readings)), old(sensorReadingsBuffer), readingsOk)
      ensures features == FlushedLedger(OnDemand(old(features)), old(engineeredFeaturesBuffer), featuresOk)
      ensures sensorReadingsBuffer == if readingsOk then [] else old(sensorReadingsBuffer)
      ensures engineeredFeaturesBuffer == if featuresOk then [] else old(engineeredFeaturesBuffer)
    {
      DeliveredAfterFlush(readingsWritten, readings, sensorReadingsBuffer, batchSize, readingsOk);
      DeliveredAfterFlush(featuresWritten, features, engineeredFeaturesBuffer, batchSize, featuresOk);
      readings, features := OnDemand(readings), OnDemand(features);
      FlushSensorReadings(readingsOk);
      FlushEngineeredFeatures(featuresOk);
    }
  }
}
