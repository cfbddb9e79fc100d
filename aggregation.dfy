/** Per-device aggregates over the rows of one device: the max, median,
    mean, quartiles and summary endpoints. */
module Aggregation {
  import opened Wrappers
  import opened Statistics
  import opened Readings

  /** `select ..., max(value), ... where device_uuid = d`. SQL's max over no
      rows is NULL, modelled as None. */
  function DeviceMax(rows: seq<Reading>, deviceUuid: string): (m: Option<int>)
    ensures m.None? <==> ByDevice(rows, deviceUuid) == []
    ensures m.Some? ==> exists x :: x in ByDevice(rows, deviceUuid) && x.value == m.value
    ensures m.Some? ==> forall x :: x in ByDevice(rows, deviceUuid) ==> x.value <= m.value
  {
    var readings := ByDevice(rows, deviceUuid);
    if readings == [] then None
    else
      var vs := Values(readings);
      ValueHasRow(readings, Max(vs));
      assert forall x :: x in readings ==> x.value <= Max(vs) by {
        forall x | x in readings ensures x.value <= Max(vs) {
          ValueListed(readings, x);
        }
      }
      Some(Max(vs))
  }

  /** The median endpoint's answer: every reading whose value equals the
      high median of the values, in their original order. */
  function MedianRecords(readings: seq<Reading>): (r: seq<Reading>)
    requires readings != []
    ensures r != []
    ensures forall x :: x in r <==> x in readings && x.value == MedianHigh(Values(readings))
    ensures forall x :: multiset(r)[x] == if x.value == MedianHigh(Values(readings)) then multiset(readings)[x] else 0
  {
    var m := MedianHigh(Values(readings));
    ValueHasRow(readings, m);
    var r := WithValue(readings, m);
    assert r != [] by {
      var x :| x in readings && x.value == m;
      assert x in r;
    }
    r
  }

  /** One entry of the summary endpoint. */
  datatype DeviceSummary = DeviceSummary(
    deviceUuid: string,
    numberOfReadings: nat,
    maxReadingValue: int,
    medianReadingValue: int,
    meanReadingValue: real,
    quartile1Value: real,
    quartile3Value: real)

  /** The summary of one device: None when the device has no readings, in
      which case no aggregate is defined. */
  function SummarizeDevice(rows: seq<Reading>, deviceUuid: string): (r: Option<DeviceSummary>)
    ensures r.None? <==> ByDevice(rows, deviceUuid) == []
    ensures r.Some? ==> var e, readings := r.value, ByDevice(rows, deviceUuid);
      && e.deviceUuid == deviceUuid
      && e.numberOfReadings == |readings| >= 1
      && e.maxReadingValue == Max(Values(readings))
      && e.medianReadingValue == MedianHigh(Values(readings))
      && e.meanReadingValue == Mean(Values(readings))
      && e.quartile1Value == Quantile(Values(readings), 1, 4)
      && e.quartile3Value == Quantile(Values(readings), 3, 4)
      && (forall x :: x in readings ==> x.value <= e.maxReadingValue)
      && e.medianReadingValue <= e.maxReadingValue
      && Min(Values(readings)) as real <= e.quartile1Value <= e.quartile3Value <= e.maxReadingValue as real
      && Min(Values(readings)) as real <= e.meanReadingValue <= e.maxReadingValue as real
  {
    var readings := ByDevice(rows, deviceUuid);
    if readings == [] then None
    else
      var vs := Values(readings);
      var max := DeviceMax(rows, deviceUuid).value;
      assert max == Max(vs);
      QuartilesOrdered(vs);
      Some(DeviceSummary(deviceUuid, |readings|, max, MedianHigh(vs), Mean(vs), Quantile(vs, 1, 4), Quantile(vs, 3, 4)))
  }

  /** When every stored row was admitted by the validator, every aggregate of
      a device lies in the value domain 0..100. */
  lemma SummaryWithinDomain(rows: seq<Reading>, deviceUuid: string)
    requires forall x :: x in rows ==> Admissible(x)
    requires ByDevice(rows, deviceUuid) != []
    ensures var e := SummarizeDevice(rows, deviceUuid).value;
      && 0 <= e.medianReadingValue <= e.maxReadingValue <= 100
      && 0.0 <= e.quartile1Value <= e.quartile3Value <= 100.0
      && 0.0 <= e.meanReadingValue <= 100.0
  {
    var readings := ByDevice(rows, deviceUuid);
    var vs := Values(readings);
    var e := SummarizeDevice(rows, deviceUuid).value;
    ValueHasRow(readings, Min(vs));
    ValueHasRow(readings, MedianHigh(vs));
    var lo :| lo in readings && lo.value == Min(vs);
    var mid :| mid in readings && mid.value == MedianHigh(vs);
    assert 0 <= lo.value;
    assert 0 <= mid.value;
  }
}
