/**
  The station registry of the bike-share sensor: a dictionary from station id
  to a station record, and the two merges that bring the feeds into it.

  The merges are stated here as functions over the feed, one entry at a time;
  the class BikeShareData (module BikeShare) runs them as loops that update its
  registry in place, and proves each loop equal to these functions.
*/
module Registry {
  import opened Wrappers

  /** Longitude and latitude are floats that the plugin passes through untouched. */
  type Coordinate = real

  /** A station record (`StationDetails`). The seven status fields are `None` until a status entry fills them. */
  datatype Station = Station(
    stationId: string,
    name: string,
    lon: Coordinate,
    lat: Coordinate,
    numBikesAvailable: Option<int>,
    numEbikesAvailable: Option<int>,
    numDocksAvailable: Option<int>,
    stationStatus: Option<string>,
    lastReported: Option<int>,
    isReturning: Option<bool>,
    isRenting: Option<bool>)

  /** One entry of `data.stations` in the station-status document. */
  datatype StatusEntry = StatusEntry(
    stationId: string,
    numBikesAvailable: int,
    numEbikesAvailable: int,
    numDocksAvailable: int,
    stationStatus: string,
    lastReported: int,
    isReturning: bool,
    isRenting: bool)

  /** One entry of `data.stations` in the station-information document. */
  datatype InfoEntry = InfoEntry(stationId: string, name: string, lon: Coordinate, lat: Coordinate)

  /** The registry `BikeShareData.info`. */
  type Stations = map<string, Station>

  predicate HasNoStatus(s: Station) {
    s.numBikesAvailable == None && s.numEbikesAvailable == None && s.numDocksAvailable == None &&
    s.stationStatus == None && s.lastReported == None && s.isReturning == None && s.isRenting == None
  }

  /** The seven status fields of `s` are those of the status entry `e`. */
  predicate StatusFrom(s: Station, e: StatusEntry) {
    s.numBikesAvailable == Some(e.numBikesAvailable) &&
    s.numEbikesAvailable == Some(e.numEbikesAvailable) &&
    s.numDocksAvailable == Some(e.numDocksAvailable) &&
    s.stationStatus == Some(e.stationStatus) &&
    s.lastReported == Some(e.lastReported) &&
    s.isReturning == Some(e.isReturning) &&
    s.isRenting == Some(e.isRenting)
  }

  /** `s` and `t` agree on the seven status fields. */
  predicate SameStatus(s: Station, t: Station) {
    s.numBikesAvailable == t.numBikesAvailable && s.numEbikesAvailable == t.numEbikesAvailable &&
    s.numDocksAvailable == t.numDocksAvailable && s.stationStatus == t.stationStatus &&
    s.lastReported == t.lastReported && s.isReturning == t.isReturning && s.isRenting == t.isRenting
  }

  /** `s` and `t` agree on identity, name and coordinates. */
  predicate SameDescription(s: Station, t: Station) {
    s.stationId == t.stationId && s.name == t.name && s.lon == t.lon && s.lat == t.lat
  }

  /** Every record is filed under its own station id. */
  predicate WellKeyed(reg: Stations) {
    forall id :: id in reg ==> reg[id].stationId == id
  }

  /** The station ids of a status feed, in feed order. */
  function StatusIds(feed: seq<StatusEntry>): (ids: seq<string>)
    ensures |ids| == |feed| && forall j :: 0 <= j < |feed| ==> ids[j] == feed[j].stationId
  {
    seq(|feed|, j requires 0 <= j < |feed| => feed[j].stationId)
  }

  /** The station ids of an info feed, in feed order. */
  function InfoIds(feed: seq<InfoEntry>): (ids: seq<string>)
    ensures |ids| == |feed| && forall j :: 0 <= j < |feed| ==> ids[j] == feed[j].stationId
  {
    seq(|feed|, j requires 0 <= j < |feed| => feed[j].stationId)
  }

  /** The ids that occur in a sequence of ids. */
  function Ids(ids: seq<string>): set<string> {
    set j | 0 <= j < |ids| :: ids[j]
  }

  /** Position `j` holds the last occurrence of its id. */
  predicate IsLast(ids: seq<string>, j: int) {
    0 <= j < |ids| && forall k :: j < k < |ids| ==> ids[k] != ids[j]
  }

  /** The ids of a non-empty sequence are those of all but its last element, and that element. */
  lemma IdsOfPrefix(ids: seq<string>)
    requires ids != []
    ensures Ids(ids) == Ids(ids[..|ids| - 1]) + {ids[|ids| - 1]}
  {
    var n := |ids| - 1;
    forall x | x in Ids(ids) ensures x in Ids(ids[..n]) + {ids[n]} {
      var k :| 0 <= k < |ids| && ids[k] == x;
      if k < n { assert ids[..n][k] == x; }
    }
    forall x | x in Ids(ids[..n]) ensures x in Ids(ids) {
      var k :| 0 <= k < n && ids[..n][k] == x;
      assert ids[k] == x;
    }
  }

  /** The position of the last occurrence of the id at position `k`. */
  function LastIndexOf(ids: seq<string>, k: nat): (j: int)
    requires k < |ids|
    ensures IsLast(ids, j) && ids[j] == ids[k] && k <= j
    decreases |ids| - k
  {
    if exists k' :: k < k' < |ids| && ids[k'] == ids[k] then
      var k' :| k < k' < |ids| && ids[k'] == ids[k];
      LastIndexOf(ids, k')
    else k
  }

  /** `StationDetails(station_id, name, lon, lat)`: a record described by an info entry and without status. */
  function NewStation(stationId: string, name: string, lon: Coordinate, lat: Coordinate): (s: Station)
    ensures HasNoStatus(s)
    ensures s.stationId == stationId && s.name == name && s.lon == lon && s.lat == lat
  {
    Station(stationId, name, lon, lat, None, None, None, None, None, None, None)
  }

  /** The record `s` after the seven status assignments for entry `e`. */
  function WithStatus(s: Station, e: StatusEntry): Station {
    s.(numBikesAvailable := Some(e.numBikesAvailable),
       numEbikesAvailable := Some(e.numEbikesAvailable),
       numDocksAvailable := Some(e.numDocksAvailable),
       stationStatus := Some(e.stationStatus),
       lastReported := Some(e.lastReported),
       isReturning := Some(e.isReturning),
       isRenting := Some(e.isRenting))
  }

  /** The record `s` after the four description assignments for entry `e`. */
  function WithInfo(s: Station, e: InfoEntry): Station {
    s.(stationId := e.stationId, name := e.name, lon := e.lon, lat := e.lat)
  }

  /** One iteration of the status loop: update a known station, skip an unknown one. */
  function StatusStep(reg: Stations, e: StatusEntry): Stations {
    if e.stationId in reg then reg[e.stationId := WithStatus(reg[e.stationId], e)] else reg
  }

  /** One iteration of the info loop: update a known station, create an unknown one. */
  function InfoStep(reg: Stations, e: InfoEntry): Stations {
    if e.stationId in reg then reg[e.stationId := WithInfo(reg[e.stationId], e)]
    else reg[e.stationId := NewStation(e.stationId, e.name, e.lon, e.lat)]
  }

  /** The registry after the status loop has run over the whole feed, in order. */
  function ApplyStatus(reg: Stations, feed: seq<StatusEntry>): Stations {
    if feed == [] then reg
    else StatusStep(ApplyStatus(reg, feed[..|feed| - 1]), feed[|feed| - 1])
  }

  /** The registry after the info loop has run over the whole feed, in order. */
  function ApplyInfo(reg: Stations, feed: seq<InfoEntry>): Stations {
    if feed == [] then reg
    else InfoStep(ApplyInfo(reg, feed[..|feed| - 1]), feed[|feed| - 1])
  }

  /**
    One refresh cycle (`_update_stations`): an info merge when the registry is
    empty, then the status merge, then an info merge in every case. The info
    document is fetched once for each info merge, so the two may differ:
    `firstInfo` is the response to the first fetch, `info` to the second.
  */
  function Cycle(reg: Stations, firstInfo: seq<InfoEntry>, status: seq<StatusEntry>, info: seq<InfoEntry>): Stations {
    var start := if |reg| == 0 then ApplyInfo(reg, firstInfo) else reg;
    ApplyInfo(ApplyStatus(start, status), info)
  }

  // ---------------------------------------------------------------------
  // The status merge

  /** A status merge adds no station and removes none. */
  lemma {:induction false} ApplyStatusKeys(reg: Stations, feed: seq<StatusEntry>)
    ensures ApplyStatus(reg, feed).Keys == reg.Keys
  {
    if feed != [] {
      ApplyStatusKeys(reg, feed[..|feed| - 1]);
    }
  }

  /**
    After a status merge, a known station carries the status of the last entry
    that names it; everything else about it is as before.
  */
  lemma {:induction false} ApplyStatusLastWins(reg: Stations, feed: seq<StatusEntry>, j: int)
    requires IsLast(StatusIds(feed), j) && feed[j].stationId in reg
    ensures feed[j].stationId in ApplyStatus(reg, feed)
    ensures ApplyStatus(reg, feed)[feed[j].stationId] == WithStatus(reg[feed[j].stationId], feed[j])
  {
    var n := |feed| - 1;
    var prefix := feed[..n];
    assert StatusIds(prefix) == StatusIds(feed)[..n];
    ApplyStatusKeys(reg, prefix);
    if j < n {
      ApplyStatusLastWins(reg, prefix, j);
    } else {
      // Whatever earlier entries did to the status, this one overwrites it all.
      ApplyStatusKeepsDescription(reg, prefix, feed[j].stationId);
    }
  }

  /** A status merge leaves alone every station that no entry names. */
  lemma {:induction false} ApplyStatusUntouched(reg: Stations, feed: seq<StatusEntry>, id: string)
    requires id !in Ids(StatusIds(feed))
    ensures id in ApplyStatus(reg, feed) <==> id in reg
    ensures id in reg ==> ApplyStatus(reg, feed)[id] == reg[id]
  {
    if feed != [] {
      var n := |feed| - 1;
      assert StatusIds(feed[..n]) == StatusIds(feed)[..n];
      IdsOfPrefix(StatusIds(feed));
      ApplyStatusUntouched(reg, feed[..n], id);
      assert feed[n].stationId != id;
    }
  }

  /** A status merge keeps the id, name and coordinates of every record. */
  lemma {:induction false} ApplyStatusKeepsDescription(reg: Stations, feed: seq<StatusEntry>, id: string)
    requires id in reg
    ensures id in ApplyStatus(reg, feed) && SameDescription(ApplyStatus(reg, feed)[id], reg[id])
  {
    if feed != [] {
      ApplyStatusKeepsDescription(reg, feed[..|feed| - 1], id);
    }
  }

  /** A status merge keeps every record filed under its own id. */
  lemma {:induction false} ApplyStatusWellKeyed(reg: Stations, feed: seq<StatusEntry>)
    requires WellKeyed(reg)
    ensures WellKeyed(ApplyStatus(reg, feed))
  {
    ApplyStatusKeys(reg, feed);
    forall id | id in ApplyStatus(reg, feed) ensures ApplyStatus(reg, feed)[id].stationId == id {
      ApplyStatusKeepsDescription(reg, feed, id);
    }
  }

  // ---------------------------------------------------------------------
  // The info merge

  /** After an info merge the registry holds the old stations and every station of the feed. */
  lemma {:induction false} ApplyInfoKeys(reg: Stations, feed: seq<InfoEntry>)
    ensures ApplyInfo(reg, feed).Keys == reg.Keys + Ids(InfoIds(feed))
  {
    if feed != [] {
      var n := |feed| - 1;
      ApplyInfoKeys(reg, feed[..n]);
      assert InfoIds(feed[..n]) == InfoIds(feed)[..n];
      IdsOfPrefix(InfoIds(feed));
    }
  }

  /**
    After an info merge, a station of the feed has the description of the last
    entry that names it. If it was known, it keeps its status; if it was not,
    it has just been created and has no status.
  */
  lemma {:induction false} ApplyInfoLastWins(reg: Stations, feed: seq<InfoEntry>, j: int)
    requires IsLast(InfoIds(feed), j)
    ensures feed[j].stationId in ApplyInfo(reg, feed)
    ensures ApplyInfo(reg, feed)[feed[j].stationId] ==
      if feed[j].stationId in reg then WithInfo(reg[feed[j].stationId], feed[j])
      else NewStation(feed[j].stationId, feed[j].name, feed[j].lon, feed[j].lat)
  {
    var n := |feed| - 1;
    var prefix := feed[..n];
    var id := feed[j].stationId;
    assert InfoIds(prefix) == InfoIds(feed)[..n];
    if j < n {
      ApplyInfoLastWins(reg, prefix, j);
    } else if id !in Ids(InfoIds(prefix)) {
      ApplyInfoUntouched(reg, prefix, id);
    } else {
      var k :| 0 <= k < n && InfoIds(prefix)[k] == id;
      ApplyInfoKeys(reg, prefix);
      assert id in ApplyInfo(reg, prefix);
      // An earlier entry for the same station: the last of those decides what the final entry finds.
      var last := LastIndexOf(InfoIds(prefix), k);
      ApplyInfoLastWins(reg, prefix, last);
    }
  }

  /** An info merge leaves alone every station that no entry names. */
  lemma {:induction false} ApplyInfoUntouched(reg: Stations, feed: seq<InfoEntry>, id: string)
    requires id !in Ids(InfoIds(feed))
    ensures id in ApplyInfo(reg, feed) <==> id in reg
    ensures id in reg ==> ApplyInfo(reg, feed)[id] == reg[id]
  {
    if feed != [] {
      var n := |feed| - 1;
      assert InfoIds(feed[..n]) == InfoIds(feed)[..n];
      IdsOfPrefix(InfoIds(feed));
      ApplyInfoUntouched(reg, feed[..n], id);
      assert feed[n].stationId != id;
    }
  }

  /** An info merge keeps the seven status fields of every station that existed before it. */
  lemma {:induction false} ApplyInfoKeepsStatus(reg: Stations, feed: seq<InfoEntry>, id: string)
    requires id in reg
    ensures id in ApplyInfo(reg, feed) && SameStatus(ApplyInfo(reg, feed)[id], reg[id])
  {
    if feed != [] {
      ApplyInfoKeepsStatus(reg, feed[..|feed| - 1], id);
    }
  }

  /** An info merge keeps every record filed under its own id. */
  lemma {:induction false} ApplyInfoWellKeyed(reg: Stations, feed: seq<InfoEntry>)
    requires WellKeyed(reg)
    ensures WellKeyed(ApplyInfo(reg, feed))
  {
    if feed != [] {
      ApplyInfoWellKeyed(reg, feed[..|feed| - 1]);
    }
  }

  // ---------------------------------------------------------------------
  // The refresh cycle

  /**
    After a cycle the registry holds the stations it held before (or, when it
    was empty, those of the first info response) and those of the last info
    response; a station seen only in the status feed is not among them.
  */
  lemma CycleKeys(reg: Stations, firstInfo: seq<InfoEntry>, status: seq<StatusEntry>, info: seq<InfoEntry>)
    ensures Cycle(reg, firstInfo, status, info).Keys ==
      (if |reg| == 0 then Ids(InfoIds(firstInfo)) else reg.Keys) + Ids(InfoIds(info))
  {
    var start := if |reg| == 0 then ApplyInfo(reg, firstInfo) else reg;
    if |reg| == 0 {
      ApplyInfoKeys(reg, firstInfo);
      assert reg.Keys == {};
    }
    ApplyStatusKeys(start, status);
    ApplyInfoKeys(ApplyStatus(start, status), info);
  }

  /**
    A station that is a key when the status merge runs ends the cycle with the
    status of its last status entry: a known station, or, when the registry was
    empty, a station of the first info response.
  */
  lemma CycleAppliesStatus(reg: Stations, firstInfo: seq<InfoEntry>, status: seq<StatusEntry>, info: seq<InfoEntry>, j: int)
    requires IsLast(StatusIds(status), j)
    requires status[j].stationId in reg || (|reg| == 0 && status[j].stationId in Ids(InfoIds(firstInfo)))
    ensures status[j].stationId in Cycle(reg, firstInfo, status, info)
    ensures StatusFrom(Cycle(reg, firstInfo, status, info)[status[j].stationId], status[j])
  {
    var id := status[j].stationId;
    var start := if |reg| == 0 then ApplyInfo(reg, firstInfo) else reg;
    if |reg| == 0 {
      ApplyInfoKeys(reg, firstInfo);
    }
    ApplyStatusLastWins(start, status, j);
    ApplyInfoKeepsStatus(ApplyStatus(start, status), info, id);
  }

  /**
    Starting from a non-empty registry, a station that is not yet a key ends
    the cycle without status, even when the status feed reports it: the status
    merge skips it, and only the info merge after it creates the record.
  */
  lemma CycleNewStationHasNoStatus(reg: Stations, firstInfo: seq<InfoEntry>, status: seq<StatusEntry>, info: seq<InfoEntry>, id: string)
    requires |reg| > 0 && id !in reg && id in Ids(InfoIds(info))
    ensures id in Cycle(reg, firstInfo, status, info)
    ensures HasNoStatus(Cycle(reg, firstInfo, status, info)[id])
  {
    ApplyStatusKeys(reg, status);
    var k :| 0 <= k < |info| && InfoIds(info)[k] == id;
    var j := LastIndexOf(InfoIds(info), k);
    ApplyInfoLastWins(ApplyStatus(reg, status), info, j);
  }

  /** Every station of the last info response ends the cycle with the name and coordinates of its last entry there. */
  lemma CycleRefreshesDescription(reg: Stations, firstInfo: seq<InfoEntry>, status: seq<StatusEntry>, info: seq<InfoEntry>, j: int)
    requires IsLast(InfoIds(info), j)
    ensures info[j].stationId in Cycle(reg, firstInfo, status, info)
    ensures var s := Cycle(reg, firstInfo, status, info)[info[j].stationId];
      s.stationId == info[j].stationId && s.name == info[j].name && s.lon == info[j].lon && s.lat == info[j].lat
  {
    var start := if |reg| == 0 then ApplyInfo(reg, firstInfo) else reg;
    ApplyInfoLastWins(ApplyStatus(start, status), info, j);
  }

  /** A cycle keeps every record filed under its own id. */
  lemma CycleWellKeyed(reg: Stations, firstInfo: seq<InfoEntry>, status: seq<StatusEntry>, info: seq<InfoEntry>)
    requires WellKeyed(reg)
    ensures WellKeyed(Cycle(reg, firstInfo, status, info))
  {
    var start := if |reg| == 0 then ApplyInfo(reg, firstInfo) else reg;
    ApplyInfoWellKeyed(reg, firstInfo);
    ApplyStatusWellKeyed(start, status);
    ApplyInfoWellKeyed(ApplyStatus(start, status), info);
  }
}
