/**
  The shared data source of the bike-share sensors (`BikeShareData`): the
  station registry, the two merges that update it in place, one refresh cycle
  and the time-based throttle in front of it.

  The HTTP responses are parameters: each fetch of a document is given as the
  sequence of entries under `data.stations` in its body.
*/
module BikeShare {
  import opened Wrappers
  import opened Registry

  /** `MIN_TIME_BETWEEN_UPDATES`: 60 seconds, here in microseconds. */
  const MinTimeBetweenUpdates: int := 60 * 1_000_000

  /**
    The throttle lets a call through when there was no earlier call that ran,
    or when strictly more than the minimum interval has passed since the last
    one that ran. This is assumed of the host's throttle decorator, which is
    not part of this model.
  */
  predicate ThrottleOpen(lastRefresh: Option<int>, now: int) {
    lastRefresh.None? || now - lastRefresh.value > MinTimeBetweenUpdates
  }

  class BikeShareData {
    const stationStatusUrl: string
    const stationInfoUrl: string
    /** The registry, `self.info`. */
    var info: Stations
    /** When the throttled update last ran, in microseconds; `None` before the first run. */
    var lastRefresh: Option<int>

    /**
      Every record is filed under its own station id: the info merge creates a
      record with the id it is filed under and resets that id on every update,
      and the status merge never touches it.
    */
    ghost predicate Valid()
      reads this
    {
      WellKeyed(info)
    }

    constructor (stationStatusUrl: string, stationInfoUrl: string)
      ensures Valid()
      ensures this.stationStatusUrl == stationStatusUrl && this.stationInfoUrl == stationInfoUrl
      ensures info == map[] && lastRefresh == None
    {
      this.stationStatusUrl := stationStatusUrl;
      this.stationInfoUrl := stationInfoUrl;
      info := map[];
      lastRefresh := None;
    }

    /**
      `update`: a refresh cycle if the throttle lets the call through, which
      then records `now` as the time of the last refresh; otherwise nothing.
    */
    method Update(now: int, firstInfo: seq<InfoEntry>, status: seq<StatusEntry>, infoFeed: seq<InfoEntry>)
      returns (refreshed: bool)
      requires Valid()
      modifies this`info, this`lastRefresh
      ensures Valid()
      ensures refreshed == ThrottleOpen(old(lastRefresh), now)
      ensures refreshed ==> info == Cycle(old(info), firstInfo, status, infoFeed) && lastRefresh == Some(now)
      ensures !refreshed ==> info == old(info) && lastRefresh == old(lastRefresh)
    {
      refreshed := ThrottleOpen(lastRefresh, now);
      if refreshed {
        var _ := UpdateStations(firstInfo, status, infoFeed);
        lastRefresh := Some(now);
      }
    }

    /**
      `_update_info`: the info merge. Every station of the feed gets the name
      and coordinates of its entry; an unknown station is created first.
    */
    method UpdateInfo(feed: seq<InfoEntry>)
      requires Valid()
      modifies this`info
      ensures Valid()
      ensures info == ApplyInfo(old(info), feed)
      ensures info.Keys == old(info).Keys + Ids(InfoIds(feed))
    {
      ghost var start := info;
      for i := 0 to |feed|
        invariant info == ApplyInfo(start, feed[..i])
      {
        var station := feed[i];
        if station.stationId in info {
          info := info[station.stationId := WithInfo(info[station.stationId], station)];
        } else {
          info := info[station.stationId := NewStation(station.stationId, station.name, station.lon, station.lat)];
        }
        assert feed[..i + 1][..i] == feed[..i];
      }
      assert feed[..|feed|] == feed;
      ApplyInfoWellKeyed(start, feed);
      ApplyInfoKeys(start, feed);
    }

    /**
      `_update_stations`: one refresh cycle. The registry first gets an info
      merge when it is empty, then the status merge, then an info merge in
      every case. `updateInfo` is the source's flag, set when the status feed
      names a station that is not a key; the cycle never reads it.
    */
    method UpdateStations(firstInfo: seq<InfoEntry>, status: seq<StatusEntry>, infoFeed: seq<InfoEntry>)
      returns (updateInfo: bool)
      requires Valid()
      modifies this`info
      ensures Valid()
      ensures info == Cycle(old(info), firstInfo, status, infoFeed)
      ensures var start := if |old(info)| == 0 then ApplyInfo(old(info), firstInfo) else old(info);
        updateInfo <==> exists k :: 0 <= k < |status| && status[k].stationId !in start
    {
      if |info| == 0 {
        UpdateInfo(firstInfo);
      }
      ghost var start := info;
      updateInfo := false;
      for i := 0 to |status|
        invariant info == ApplyStatus(start, status[..i])
        invariant info.Keys == start.Keys
        invariant updateInfo <==> exists k :: 0 <= k < i && status[k].stationId !in start
      {
        var station := status[i];
        if station.stationId in info {
          info := info[station.stationId := WithStatus(info[station.stationId], station)];
        } else {
          updateInfo := true;
        }
        assert status[..i + 1][..i] == status[..i];
      }
      assert status[..|status|] == status;
      ApplyStatusWellKeyed(start, status);
      UpdateInfo(infoFeed);
    }
  }

  /**
    Two polls of one data source, the second no more than the minimum interval
    after the first: only the first fetches the feeds, and the registry is the
    one that first cycle built.
  */
  method TwoPollsWithinInterval(t1: int, t2: int, firstInfo: seq<InfoEntry>, status: seq<StatusEntry>,
                                infoFeed: seq<InfoEntry>, laterStatus: seq<StatusEntry>, laterInfo: seq<InfoEntry>)
    returns (refreshes: nat, stations: Stations)
    requires t1 <= t2 <= t1 + MinTimeBetweenUpdates
    ensures refreshes == 1
    ensures stations == Cycle(map[], firstInfo, status, infoFeed)
  {
    var data := new BikeShareData("status-url", "info-url");
    var first := data.Update(t1, firstInfo, status, infoFeed);
    var second := data.Update(t2, laterInfo, laterStatus, laterInfo);
    refreshes := (if first then 1 else 0) + (if second then 1 else 0);
    stations := data.info;
  }
}
