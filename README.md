# GBFS bike-share sensor: the station registry

A Dafny model of the data core of a Home Assistant sensor platform for
bike-share systems that publish GBFS feeds. One shared data source
(`BikeShareData`) keeps a registry: a dictionary from station id to a station
record (`StationDetails`). A throttled refresh cycle merges the
station-status document and the station-information document into that
registry. Each configured sensor (`BikeShareSensor`) reports its station's
number of available bikes as its state and ten record fields as attributes.

Layout:

- `wrappers.dfy` (module `Wrappers`): `Option` for the nullable record fields and `Result` for lookups that can fail.
- `registry.dfy` (module `Registry`): the station record, the feed entries, and the two merges and one refresh cycle as functions over the feeds. It also holds the lemmas about them.
- `bike_share.dfy` (module `BikeShare`): the class `BikeShareData`. Its registry is a `map` field. Its methods run the merges as loops that update that field in place, and each is proved equal to the function in `Registry`. The module also holds the throttle.
- `sensor.dfy` (module `Sensor`): the class `BikeShareSensor`, the state and attribute lookups, and lemmas about what a sensor reads after a cycle. The sensor's `State` and `ExtraStateAttributes` (the plugin's `state` and `extra_state_attributes`) read the shared registry through `StateOf` and `AttributesOf`, whose rows below give their contracts.

Each HTTP response is a parameter: the sequence of entries under `data.stations` in its body.
A refresh cycle fetches the information document twice when the registry is empty (`sensor.py:173-174` and `:200`).
The two responses may differ, so `Cycle` takes both: `firstInfo` and `info`.

Two behaviours of the code that the model keeps:

- The status merge skips a station that is not yet a key (`sensor.py:186`, `:196-197`). The flag it sets there (`:183`, `:197`) is never read.
- The info merge at `:200` then creates the record with every status field `None`. `Registry.CycleNewStationHasNoStatus` proves this outcome.
- Such a station gets its status only in a later cycle, and only if that cycle's status feed names it. `Registry.CycleAppliesStatus` then gives it the fields of its last status entry.
- Where the plugin raises `KeyError` for a station that is not a key (`sensor.py:84`, `:90-99`), the model returns `Failure(UnknownStation(id))`.

## Model

| member | source | states |
|---|---|---|
| `Registry.NewStation` | custom_components/gbfs/sensor.py:119-131 | A new record carries the given id, name and coordinates, and all seven status fields are `None`. |
| `Registry.ApplyStatusKeys` | custom_components/gbfs/sensor.py:185-197 | A status merge never adds or removes a key; ids that are not keys are skipped. |
| `Registry.ApplyStatusLastWins` | custom_components/gbfs/sensor.py:185-195 | For a known station, after a status merge its seven status fields are those of the last entry naming it. Its id, name and coordinates are unchanged. |
| `Registry.ApplyStatusUntouched` | custom_components/gbfs/sensor.py:185-197 | A station that no status entry names is unchanged, and is a key afterwards exactly when it was before. |
| `Registry.ApplyStatusKeepsDescription` | custom_components/gbfs/sensor.py:186-195 | A status merge keeps the `station_id`, `name`, `lon` and `lat` of every record. |
| `Registry.ApplyStatusWellKeyed` | custom_components/gbfs/sensor.py:185-197 | A status merge keeps every record filed under its own station id. |
| `Registry.ApplyInfoKeys` | custom_components/gbfs/sensor.py:157-166 | After an info merge the key set is the old key set united with the ids of the info feed. |
| `Registry.ApplyInfoLastWins` | custom_components/gbfs/sensor.py:157-164 | A listed station gets id, name and coordinates from its last entry. A station that existed keeps its status fields. A station created by the merge has none. |
| `Registry.ApplyInfoUntouched` | custom_components/gbfs/sensor.py:157-166 | A station that no info entry names is unchanged, and no record is created for it. |
| `Registry.ApplyInfoKeepsStatus` | custom_components/gbfs/sensor.py:158-162 | An info merge keeps the seven status fields of every record that existed before it. |
| `Registry.ApplyInfoWellKeyed` | custom_components/gbfs/sensor.py:157-164 | An info merge keeps every record filed under its own station id. |
| `Registry.CycleKeys` | custom_components/gbfs/sensor.py:168-200 | After a cycle the keys are the old keys, or the first info response's ids when the registry was empty, plus the last info response's ids. A station seen only in the status feed is not a key. |
| `Registry.CycleAppliesStatus` | custom_components/gbfs/sensor.py:171-200 | A station that is a key when the status merge runs ends the cycle with its last status entry's fields. This covers a station already known, and a station in the first info fetch of a cycle that started empty. |
| `Registry.CycleNewStationHasNoStatus` | custom_components/gbfs/sensor.py:173-200 | Starting from a non-empty registry, a station that is not yet a key and is named by the info feed ends the cycle with all status fields `None`, whatever the status feed says. |
| `Registry.CycleRefreshesDescription` | custom_components/gbfs/sensor.py:199-200 | Every station of the last info response ends the cycle with the name and coordinates of its last entry there. |
| `Registry.CycleWellKeyed` | custom_components/gbfs/sensor.py:168-200 | A refresh cycle keeps every record filed under its own station id. |
| `BikeShare.BikeShareData.constructor` | custom_components/gbfs/sensor.py:136-140 | A new data source keeps both URLs, starts with an empty registry and has never refreshed. |
| `BikeShare.BikeShareData.Update` | custom_components/gbfs/sensor.py:142-146 | The cycle runs exactly when the throttle lets the call through, and then records the call time. Otherwise registry and timestamp are unchanged. |
| `BikeShare.BikeShareData.UpdateInfo` | custom_components/gbfs/sensor.py:148-166 | The in-place loop leaves the registry equal to the info merge of the feed, so its keys are the old keys plus the feed's ids. |
| `BikeShare.BikeShareData.UpdateStations` | custom_components/gbfs/sensor.py:168-200 | The in-place cycle leaves the registry equal to `Cycle`. Its flag is set exactly when some status entry names a station that was not a key. |
| `BikeShare.TwoPollsWithinInterval` | custom_components/gbfs/sensor.py:142-146 | Two polls no more than 60 s apart give one refresh, and the registry is the one the first cycle built. |
| `Sensor.StateOf` | custom_components/gbfs/sensor.py:81-84 | The state is the record's `num_bikes_available` when the sensor's id is a key, and an unknown-station error otherwise. |
| `Sensor.AttributesOf` | custom_components/gbfs/sensor.py:86-101 | Each of the ten attributes equals the matching field of the record. An id that is not a key gives an unknown-station error. |
| `Sensor.BikeShareSensor.constructor` | custom_components/gbfs/sensor.py:68-75 | A sensor keeps its data source, name, id and icons, and polls the data source once, subject to the throttle: registry and refresh time are those of `BikeShareData.Update`. |
| `Sensor.BikeShareSensor.Update` | custom_components/gbfs/sensor.py:112-116 | A sensor poll is the throttled update of the shared data source. |
| `Sensor.TwoSensorsOneRefresh` | custom_components/gbfs/sensor.py:52-61 | Two sensors created on one fresh data source no more than 60 s apart trigger one refresh: the registry is the first cycle's and the refresh time is the first creation's. |
| `Sensor.StateAfterCycle` | custom_components/gbfs/sensor.py:82-84 | After a cycle, a sensor whose station was a key at the status merge reports the bike count of its last status entry. |
| `Sensor.UnknownStationAfterCycle` | custom_components/gbfs/sensor.py:84-99 | After a cycle, a sensor whose station no info response named fails state and attribute reads with an unknown-station error. |
| `Sensor.MainStreetFirstCycle` | custom_components/gbfs/sensor.py:82-101 | Station "42" is in both feeds of a first cycle, so the sensor reports 5 bikes and all ten attributes from the two entries. |

## Left out

- HTTP fetching, status-code checks and the logging of failures (`sensor.py:151-155`, `:177-181`): network I/O. Each response is an input sequence of entries.
- JSON parsing of `data.stations` (`sensor.py:157`, `:185`): entries are assumed well formed. A malformed body, which raises in the plugin, is not modelled.
- Field types of feed entries: the plugin copies whatever JSON values it finds. The model fixes them: counts and `last_reported` as integers, status as a string, the two flags as booleans, coordinates as opaque reals.
- `BikeShare.BikeShareData.Update`: the throttle decorator is a library that is not part of this model. Its behaviour is assumed: a call runs when none has run before or when strictly more than 60 s have passed since the last one that ran, which then records its time. Its lock, its per-instance bookkeeping and the time spent inside the call are not modelled.
- Records are values in a `map` field that the methods reassign. The plugin mutates `StationDetails` objects in place. No other object holds a reference to them, so no aliasing is lost.
- The configuration schema and the host registration in `setup_platform` (`sensor.py:38-63`): host plumbing. Only its creation of several sensors on one data source is modelled, by `Sensor.TwoSensorsOneRefresh`.
- Presentation getters `name`, `unit_of_measurement`, `icon`, and the unused electric icon (`sensor.py:77-79`, `:103-110`, `:73`). The icon strings are kept only as constant fields of the sensor.
- Logging (`sensor.py:115-116`, `:144`).
