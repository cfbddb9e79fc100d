/** The `readings` table as an in-memory sequence of rows, and the row
    selections that the endpoints issue against it. */
module Readings {
  import opened Sequences
  import opened Validators

  /** One row: (device_uuid, type, value, date_created). */
  datatype Reading = Reading(deviceUuid: string, sensorType: string, value: int, dateCreated: int)

  /** A row the write path would accept. */
  predicate Admissible(r: Reading) {
    ReadingIsValid(r.sensorType, r.value).0
  }

  /** `where device_uuid = d`: exactly the device's rows, each as often as stored. */
  function ByDevice(rows: seq<Reading>, deviceUuid: string): (r: seq<Reading>)
    ensures forall x :: x in r <==> x in rows && x.deviceUuid == deviceUuid
    ensures forall x :: multiset(r)[x] == if x.deviceUuid == deviceUuid then multiset(rows)[x] else 0
  {
    Filter(rows, (x: Reading) => x.deviceUuid == deviceUuid)
  }

  /** `where type = t`. */
  function OfType(rows: seq<Reading>, sensorType: string): (r: seq<Reading>)
    ensures forall x :: x in r <==> x in rows && x.sensorType == sensorType
    ensures forall x :: multiset(r)[x] == if x.sensorType == sensorType then multiset(rows)[x] else 0
  {
    Filter(rows, (x: Reading) => x.sensorType == sensorType)
  }

  /** `where date_created >= start and date_created <= end`: both bounds inclusive. */
  function CreatedBetween(rows: seq<Reading>, start: int, end: int): (r: seq<Reading>)
    ensures forall x :: x in r <==> x in rows && start <= x.dateCreated <= end
    ensures forall x :: multiset(r)[x] == if start <= x.dateCreated <= end then multiset(rows)[x] else 0
  {
    Filter(rows, (x: Reading) => start <= x.dateCreated <= end)
  }

  /** The rows whose value equals `v`, in their original order. */
  function WithValue(rows: seq<Reading>, v: int): (r: seq<Reading>)
    ensures forall x :: x in r <==> x in rows && x.value == v
    ensures forall x :: multiset(r)[x] == if x.value == v then multiset(rows)[x] else 0
  {
    Filter(rows, (x: Reading) => x.value == v)
  }

  /** Appending a row extends its own device's selection by that row and
      leaves every other device's selection as it was. */
  lemma ByDeviceAppend(rows: seq<Reading>, x: Reading, deviceUuid: string)
    ensures ByDevice(rows + [x], deviceUuid) ==
      ByDevice(rows, deviceUuid) + (if x.deviceUuid == deviceUuid then [x] else [])
  {
    FilterConcat(rows, [x], (y: Reading) => y.deviceUuid == deviceUuid);
  }

  /** The value column, in row order. */
  function Values(rows: seq<Reading>): (vs: seq<int>)
    ensures |vs| == |rows|
    ensures forall i :: 0 <= i < |rows| ==> vs[i] == rows[i].value
  {
    seq(|rows|, i requires 0 <= i < |rows| => rows[i].value)
  }

  lemma ValueListed(rows: seq<Reading>, x: Reading)
    requires x in rows
    ensures x.value in Values(rows)
  {
    var i :| 0 <= i < |rows| && rows[i] == x;
    assert Values(rows)[i] == x.value;
  }

  lemma ValueHasRow(rows: seq<Reading>, v: int)
    requires v in Values(rows)
    ensures exists x :: x in rows && x.value == v
  {
    var i :| 0 <= i < |rows| && Values(rows)[i] == v;
    assert rows[i] in rows;
  }

  /** The set of device identifiers that occur in the table. */
  function Devices(rows: seq<Reading>): set<string> {
    set x | x in rows :: x.deviceUuid
  }

  /** `select distinct device_uuid`: every device once. The order (first
      appearance) is this model's choice; the query fixes none. */
  function DistinctDevices(rows: seq<Reading>): (ds: seq<string>)
    ensures forall i, j :: 0 <= i < j < |ds| ==> ds[i] != ds[j]
    ensures forall d :: d in ds <==> d in Devices(rows)
  {
    if rows == [] then []
    else
      var front := rows[..|rows| - 1];
      var last := rows[|rows| - 1];
      assert rows == front + [last];
      assert Devices(rows) == Devices(front) + {last.deviceUuid};
      var ds := DistinctDevices(front);
      if last.deviceUuid in ds then ds else ds + [last.deviceUuid]
  }

  /** A listed device has at least one row. */
  lemma DeviceHasRows(rows: seq<Reading>, deviceUuid: string)
    requires deviceUuid in Devices(rows)
    ensures ByDevice(rows, deviceUuid) != []
  {
    var x :| x in rows && x.deviceUuid == deviceUuid;
    assert x in ByDevice(rows, deviceUuid);
  }
}
