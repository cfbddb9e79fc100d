/** The reading store and the endpoint handlers that change or scan it
    (app.py). The SQLite table is the sequence `rows`; a committed insert is
    an append. */
module Store {
  import opened Wrappers
  import opened Validators
  import opened Statistics
  import opened Readings
  import opened Aggregation

  /** The handlers' loop that copies the value column of the fetched rows
      into a fresh list. */
  method CollectValues(readings: seq<Reading>) returns (values: seq<int>)
    ensures values == Values(readings)
  {
    values := [];
    for i := 0 to |readings|
      invariant |values| == i
      invariant forall k :: 0 <= k < i ==> values[k] == readings[k].value
    {
      values := values + [readings[i].value];
    }
  }

  class ReadingStore {
    var rows: seq<Reading>

    /** Only rows the validator admitted are ever stored (with `value`
        taken as an integer). */
    ghost predicate Valid()
      reads this
    {
      forall x :: x in rows ==> Admissible(x)
    }

    constructor ()
      ensures Valid() && rows == []
    {
      rows := [];
    }

    /** The POST branch of `request_device_readings`: validate, then insert
        one row with `date_created` defaulting to the current time `now`. A
        rejected reading leaves the table as it was. */
    method PostReading(deviceUuid: string, sensorType: string, value: int, dateCreated: Option<int>, now: int)
      returns (body: string, status: int)
      requires Valid()
      modifies this
      ensures Valid()
      ensures ReadingIsValid(sensorType, value).0 ==>
        var created := if dateCreated.Some? then dateCreated.value else now;
        rows == old(rows) + [Reading(deviceUuid, sensorType, value, created)] && body == "success" && status == 201
      ensures !ReadingIsValid(sensorType, value).0 ==>
        rows == old(rows) && body in ReadingsTypesErrors && body == ReadingIsValid(sensorType, value).1 && status == 400
    {
      var created := if dateCreated.Some? then dateCreated.value else now;
      var (isValid, result) := ReadingIsValid(sensorType, value);
      if isValid {
        rows := rows + [Reading(deviceUuid, sensorType, value, created)];
        return "success", 201;
      } else {
        return result, 400;
      }
    }

    /** `request_device_readings_median`: the device's readings whose value is
        the high median of its values. `median_high` raises on an empty list;
        that failure is None. */
    method MedianReadings(deviceUuid: string) returns (result: Option<seq<Reading>>)
      ensures result.None? <==> ByDevice(rows, deviceUuid) == []
      ensures result.Some? ==> result.value != [] && result.value == MedianRecords(ByDevice(rows, deviceUuid))
      ensures result.Some? ==> forall x :: x in result.value <==>
        (x in rows && x.deviceUuid == deviceUuid && x.value == MedianHigh(Values(ByDevice(rows, deviceUuid))))
    {
      var readings := ByDevice(rows, deviceUuid);
      var values := CollectValues(readings);
      if values == [] {
        return None;
      }
      var median := MedianHigh(values);
      result := Some(WithValue(readings, median));
      assert result.value == MedianRecords(readings);
    }

    /** `request_device_readings_mean`: None where `mean` raises on no data. */
    method MeanReading(deviceUuid: string) returns (result: Option<real>)
      ensures result.None? <==> ByDevice(rows, deviceUuid) == []
      ensures result.Some? ==> var vs := Values(ByDevice(rows, deviceUuid));
        && result.value == Sum(vs) as real / |vs| as real
        && Min(vs) as real <= result.value <= Max(vs) as real
    {
      var readings := ByDevice(rows, deviceUuid);
      var values := CollectValues(readings);
      if values == [] {
        return None;
      }
      result := Some(Mean(values));
    }

    /** `request_device_readings_quartiles`: the quantiles at 1/4 and 3/4;
        None where `np.quantile` raises on no data. */
    method QuartileReadings(deviceUuid: string) returns (result: Option<(real, real)>)
      ensures result.None? <==> ByDevice(rows, deviceUuid) == []
      ensures result.Some? ==> var vs := Values(ByDevice(rows, deviceUuid));
        && result.value == (Quantile(vs, 1, 4), Quantile(vs, 3, 4))
        && Min(vs) as real <= result.value.0 <= result.value.1 <= Max(vs) as real
    {
      var readings := ByDevice(rows, deviceUuid);
      var values := CollectValues(readings);
      if values == [] {
        return None;
      }
      QuartilesOrdered(values);
      result := Some((Quantile(values, 1, 4), Quantile(values, 3, 4)));
    }

    /** The body of the summary loop for one listed device: count and max
        from the aggregate query, then the value list and the statistics. */
    method DeviceEntry(deviceUuid: string) returns (entry: DeviceSummary)
      requires deviceUuid in Devices(rows)
      ensures SummarizeDevice(rows, deviceUuid) == Some(entry)
    {
      DeviceHasRows(rows, deviceUuid);
      var readings := ByDevice(rows, deviceUuid);
      var count, max := |readings|, DeviceMax(rows, deviceUuid).value;
      var values := CollectValues(readings);
      entry := DeviceSummary(deviceUuid, count, max, MedianHigh(values), Mean(values),
                             Quantile(values, 1, 4), Quantile(values, 3, 4));
    }

    /** `request_readings_summary`: one entry per distinct device, in the
        order the devices first appear. */
    method Summary() returns (entries: seq<DeviceSummary>)
      ensures |entries| == |DistinctDevices(rows)|
      ensures forall i :: 0 <= i < |entries| ==>
        entries[i].deviceUuid == DistinctDevices(rows)[i] && SummarizeDevice(rows, entries[i].deviceUuid) == Some(entries[i])
      ensures forall d :: d in Devices(rows) <==> exists i :: 0 <= i < |entries| && entries[i].deviceUuid == d
      ensures forall i, j :: 0 <= i < j < |entries| ==> entries[i].deviceUuid != entries[j].deviceUuid
      ensures forall i :: 0 <= i < |entries| ==>
        entries[i].numberOfReadings >= 1 && entries[i].medianReadingValue <= entries[i].maxReadingValue
      ensures Valid() ==> forall i :: 0 <= i < |entries| ==>
        && 0 <= entries[i].medianReadingValue <= entries[i].maxReadingValue <= 100
        && 0.0 <= entries[i].quartile1Value <= entries[i].quartile3Value <= 100.0
        && 0.0 <= entries[i].meanReadingValue <= 100.0
    {
      var devices := DistinctDevices(rows);
      entries := [];
      for i := 0 to |devices|
        invariant |entries| == i
        invariant forall k :: 0 <= k < i ==>
          entries[k].deviceUuid == devices[k] && SummarizeDevice(rows, devices[k]) == Some(entries[k])
      {
        var entry := DeviceEntry(devices[i]);
        entries := entries + [entry];
      }
      SummaryCoversDevices(rows, entries);
      forall i | 0 <= i < |entries| && Valid()
        ensures 0 <= entries[i].medianReadingValue <= entries[i].maxReadingValue <= 100
        ensures 0.0 <= entries[i].quartile1Value <= entries[i].quartile3Value <= 100.0
        ensures 0.0 <= entries[i].meanReadingValue <= 100.0
      {
        assert entries[i].deviceUuid in Devices(rows);
        DeviceHasRows(rows, entries[i].deviceUuid);
        SummaryWithinDomain(rows, entries[i].deviceUuid);
      }
    }
  }

  /** A summary with one entry per distinct device, in that order, names
      every stored device exactly once. */
  lemma SummaryCoversDevices(rows: seq<Reading>, entries: seq<DeviceSummary>)
    requires |entries| == |DistinctDevices(rows)|
    requires forall i :: 0 <= i < |entries| ==> entries[i].deviceUuid == DistinctDevices(rows)[i]
    ensures forall d :: d in Devices(rows) <==> exists i :: 0 <= i < |entries| && entries[i].deviceUuid == d
    ensures forall i, j :: 0 <= i < j < |entries| ==> entries[i].deviceUuid != entries[j].deviceUuid
  {
    var devices := DistinctDevices(rows);
    forall d | d in Devices(rows) ensures exists i :: 0 <= i < |entries| && entries[i].deviceUuid == d {
      var i :| 0 <= i < |devices| && devices[i] == d;
      assert entries[i].deviceUuid == d;
    }
  }
}
