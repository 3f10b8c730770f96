/**
  The bike-share sensor (`BikeShareSensor`): one per configured station. It
  polls the shared data source and reads its own station's record from the
  shared registry: the number of available bikes as its state, and ten
  attributes.
*/
module Sensor {
  import opened Wrappers
  import opened Registry
  import opened BikeShare

  /** Reading a station that is not a key of the registry (a `KeyError` in the plugin). */
  datatype SensorError = UnknownStation(stationId: string)

  /** The attribute map of the sensor, as a record with one field per attribute name. */
  datatype Attributes = Attributes(
    stationName: string,
    stationStatus: Option<string>,
    numBikesAvailable: Option<int>,
    numEbikesAvailable: Option<int>,
    numDocksAvailable: Option<int>,
    isReturning: Option<bool>,
    isRenting: Option<bool>,
    lastReported: Option<int>,
    longitude: Coordinate,
    latitude: Coordinate)

  /** The state of the sensor for station `id`: its number of available bikes. */
  function StateOf(reg: Stations, id: string): (r: Result<Option<int>, SensorError>)
    ensures r.Success? <==> id in reg
    ensures r.Success? ==> r.value == reg[id].numBikesAvailable
    ensures r.Failure? ==> r.error == UnknownStation(id)
  {
    if id in reg then Success(reg[id].numBikesAvailable) else Failure(UnknownStation(id))
  }

  /** The attributes of the sensor for station `id`, each read from the matching field of its record. */
  function AttributesOf(reg: Stations, id: string): (r: Result<Attributes, SensorError>)
    ensures r.Success? <==> id in reg
    ensures r.Success? ==>
      var s := reg[id];
      r.value.stationName == s.name && r.value.stationStatus == s.stationStatus &&
      r.value.numBikesAvailable == s.numBikesAvailable && r.value.numEbikesAvailable == s.numEbikesAvailable &&
      r.value.numDocksAvailable == s.numDocksAvailable && r.value.isReturning == s.isReturning &&
      r.value.isRenting == s.isRenting && r.value.lastReported == s.lastReported &&
      r.value.longitude == s.lon && r.value.latitude == s.lat
    ensures r.Failure? ==> r.error == UnknownStation(id)
  {
    if id !in reg then Failure(UnknownStation(id))
    else
      var s := reg[id];
      Success(Attributes(s.name, s.stationStatus, s.numBikesAvailable, s.numEbikesAvailable, s.numDocksAvailable,
                         s.isReturning, s.isRenting, s.lastReported, s.lon, s.lat))
  }

  class BikeShareSensor {
    const data: BikeShareData
    const name: string
    const icon: string
    const iconElectric: string
    const stationId: string

    /** The sensor polls the data source as soon as it is created. */
    constructor (data: BikeShareData, name: string, stationId: string, icon: string, iconElectric: string,
                 now: int, firstInfo: seq<InfoEntry>, status: seq<StatusEntry>, infoFeed: seq<InfoEntry>)
      requires data.Valid()
      modifies data
      ensures this.data == data && this.name == name && this.stationId == stationId
      ensures this.icon == icon && this.iconElectric == iconElectric
      ensures data.Valid()
      ensures data.info == if ThrottleOpen(old(data.lastRefresh), now)
        then Cycle(old(data.info), firstInfo, status, infoFeed) else old(data.info)
      ensures data.lastRefresh == if ThrottleOpen(old(data.lastRefresh), now)
        then Some(now) else old(data.lastRefresh)
    {
      this.data := data;
      this.name := name;
      this.stationId := stationId;
      this.icon := icon;
      this.iconElectric := iconElectric;
      new;
      Update(now, firstInfo, status, infoFeed);
    }

    /** `update`: the throttled refresh of the shared data source. */
    method Update(now: int, firstInfo: seq<InfoEntry>, status: seq<StatusEntry>, infoFeed: seq<InfoEntry>)
      requires data.Valid()
      modifies data
      ensures data.Valid()
      ensures data.info == if ThrottleOpen(old(data.lastRefresh), now)
        then Cycle(old(data.info), firstInfo, status, infoFeed) else old(data.info)
      ensures data.lastRefresh == if ThrottleOpen(old(data.lastRefresh), now)
        then Some(now) else old(data.lastRefresh)
    {
      var _ := data.Update(now, firstInfo, status, infoFeed);
    }

    /** `state`, read from the shared registry. */
    function State(): Result<Option<int>, SensorError>
      reads data
    {
      StateOf(data.info, stationId)
    }

    /** `extra_state_attributes`, read from the shared registry. */
    function ExtraStateAttributes(): Result<Attributes, SensorError>
      reads data
    {
      AttributesOf(data.info, stationId)
    }
  }

  /**
    Two sensors created one after the other on one fresh data source, no more
    than the minimum interval apart: only the first one's poll fetches the
    feeds, and the registry both read is the one that first cycle built.
  */
  method TwoSensorsOneRefresh(t1: int, t2: int, firstInfo: seq<InfoEntry>, status: seq<StatusEntry>,
                              infoFeed: seq<InfoEntry>, laterStatus: seq<StatusEntry>, laterInfo: seq<InfoEntry>)
    returns (stations: Stations, lastRefresh: Option<int>)
    requires t1 <= t2 <= t1 + MinTimeBetweenUpdates
    ensures stations == Cycle(map[], firstInfo, status, infoFeed)
    ensures lastRefresh == Some(t1)
  {
    var data := new BikeShareData("status-url", "info-url");
    var first := new BikeShareSensor(data, "Main St", "42", "mdi:bicycle", "mdi:bicycle-electric",
                                     t1, firstInfo, status, infoFeed);
    var second := new BikeShareSensor(data, "Elm St", "43", "mdi:bicycle", "mdi:bicycle-electric",
                                      t2, laterInfo, laterStatus, laterInfo);
    stations, lastRefresh := data.info, data.lastRefresh;
  }

  /**
    After a refresh cycle, a sensor whose station the status merge found in the
    registry reports the bike count of that station's last status entry.
  */
  lemma StateAfterCycle(reg: Stations, firstInfo: seq<InfoEntry>, status: seq<StatusEntry>, infoFeed: seq<InfoEntry>, j: int)
    requires IsLast(StatusIds(status), j)
    requires status[j].stationId in reg || (|reg| == 0 && status[j].stationId in Ids(InfoIds(firstInfo)))
    ensures StateOf(Cycle(reg, firstInfo, status, infoFeed), status[j].stationId) ==
      Success(Some(status[j].numBikesAvailable))
  {
    CycleAppliesStatus(reg, firstInfo, status, infoFeed, j);
  }

  /** A sensor whose station no info response has named fails with an unknown-station error after a cycle. */
  lemma UnknownStationAfterCycle(reg: Stations, firstInfo: seq<InfoEntry>, status: seq<StatusEntry>, infoFeed: seq<InfoEntry>, id: string)
    requires id !in reg && id !in Ids(InfoIds(infoFeed))
    requires |reg| > 0 || id !in Ids(InfoIds(firstInfo))
    ensures StateOf(Cycle(reg, firstInfo, status, infoFeed), id) == Failure(UnknownStation(id))
    ensures AttributesOf(Cycle(reg, firstInfo, status, infoFeed), id) == Failure(UnknownStation(id))
  {
    CycleKeys(reg, firstInfo, status, infoFeed);
  }

  /**
    A first cycle on an empty registry with one station in both feeds: the
    sensor reports 5 bikes and every attribute from the two entries.
  */
  lemma MainStreetFirstCycle()
    ensures var info := [InfoEntry("42", "Main St", -122.1, 37.4)];
      var status := [StatusEntry("42", 5, 1, 10, "active", 1000, true, true)];
      var reg := Cycle(map[], info, status, info);
      StateOf(reg, "42") == Success(Some(5)) &&
      AttributesOf(reg, "42") == Success(Attributes("Main St", Some("active"), Some(5), Some(1), Some(10),
                                                    Some(true), Some(true), Some(1000), -122.1, 37.4))
  {
    var info := [InfoEntry("42", "Main St", -122.1, 37.4)];
    var status := [StatusEntry("42", 5, 1, 10, "active", 1000, true, true)];
    assert info[0].stationId == "42";
    CycleAppliesStatus(map[], info, status, info, 0);
    CycleRefreshesDescription(map[], info, status, info, 0);
  }
}
