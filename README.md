# Format BLE Tracker — a Dafny model of the presence core

Format BLE Tracker is a Home Assistant integration. Receivers placed in rooms
report, over MQTT, the signal strength (RSSI) at which they hear a Bluetooth
beacon. The integration decides which room each beacon is in. This project
models the four parts of `custom_components/format_ble_tracker/` that make
that decision, and proves properties of the model.

- **The beacon coordinator** (`__init__.py`, module `Coordinator`, with
  `RoomData` and `Topics`). It keeps the latest RSSI per room in insertion
  order and one expiry timer per room.
  - A message whose timestamp is at least one delay old is dropped.
  - An admitted message re-arms its room's timer and stores the reading.
  - A timer fires only once its deadline has passed, and then forgets its
    room.
  - A new delay re-arms every timer.
  - After each change, the current room is the room with the strongest
    reading. Ties go to the room heard first, because Python's `sorted` is
    stable.

  Timers are deadlines in a map. The clock is an integer parameter `now`.
- **The device trackers** (`device_tracker.py`, module `DeviceTracker`).
  - A beacon tracker is `home` exactly when its coordinator has a room.
  - A merged tracker folds its members' states into one state under OR logic
    (away when any member is away) or AND logic (away when no member is home).
- **The config flow** (`config_flow.py` with the patterns of `const.py`,
  module `ConfigFlow`).
  - The menu dispatches to one of two steps.
  - An id goes through `strip()` and `upper()`, must match the MAC or the
    UUID pattern, and must not be configured already.
  - A combined tracker needs at least two members.
- **The expiry-delay slider** (`number.py`, module `ExpirationNumber`). A
  set value is clamped to 1..10 minutes. A missing restored value defaults
  to 2. The value is forwarded to the coordinator.

Python dictionaries are insertion-ordered sequences with distinct keys
(`RoomData`): assigning to a key that exists keeps its place, and a new key
goes to the end. A missing dictionary key that the source reads with `[]`
becomes an explicit `KeyError` result. A topic with fewer than three levels
becomes the outcome `NoRoomLevel`.

Three facts about the code shape the model:

- There is no RSSI floor, no smoothing filter and no tracking of gaps
  between messages: the stored value is the raw RSSI (`__init__.py:148`).
- Equal readings go to the room heard first, because the sort is stable
  (`__init__.py:113-124`; `RoomData.TieGoesToFirstInserted`).
- `expire_data` deletes the room without checking that it is still there
  (`__init__.py:166-170`), so `ExpireData` requires the room's timer to be
  armed and due.

## Model

| member | source | states |
|---|---|---|
| `RoomData.Put` | custom_components/format_ble_tracker/__init__.py:148 | `room_data[room] = rssi`: the keys gain `room`; an existing room keeps its position and takes the new value; a new room is appended at the end |
| `RoomData.PutGet` | custom_components/format_ble_tracker/__init__.py:148 | after the assignment the room reads the new RSSI and every other room reads what it read before |
| `RoomData.PutDistinct` | custom_components/format_ble_tracker/__init__.py:148 | the assignment never makes a room occur twice |
| `RoomData.Remove` | custom_components/format_ble_tracker/__init__.py:168 | `del room_data[room]`: one entry fewer; the entries before the room are unchanged; the entries after it shift down by one |
| `RoomData.RemoveKeys` | custom_components/format_ble_tracker/__init__.py:166-170 | deleting a room drops exactly that key, keeps the keys distinct, and leaves every other room's value unchanged |
| `RoomData.InsertDesc` | custom_components/format_ble_tracker/__init__.py:113-124 | one insertion step of the sort: the result is a permutation of the entry plus the sorted entries |
| `RoomData.InsertDescDescending` | custom_components/format_ble_tracker/__init__.py:113-124 | the insertion step keeps the entries ordered by descending RSSI |
| `RoomData.SortedByRssiDesc` | custom_components/format_ble_tracker/__init__.py:113-124 | `sorted(..., key=rssi, reverse=True)` returns a permutation of the readings |
| `RoomData.SortedDescending` | custom_components/format_ble_tracker/__init__.py:113-124 | the sorted readings are in descending RSSI order |
| `RoomData.FirstMaxIndex` | custom_components/format_ble_tracker/__init__.py:113-124 | reference scan: the position of the earliest reading whose RSSI no reading exceeds |
| `RoomData.SortedHead` | custom_components/format_ble_tracker/__init__.py:113-124 | the first item of the stable descending sort is the earliest-inserted strongest reading |
| `RoomData.SelectRoom` | custom_components/format_ble_tracker/__init__.py:109-125 | the current room is absent exactly when there are no readings; otherwise it is the room of the earliest strongest reading |
| `RoomData.SelectRoomAt` | custom_components/format_ble_tracker/__init__.py:109-125 | any position holding the earliest strongest reading determines the selected room |
| `RoomData.SelectAfterPut` | custom_components/format_ble_tracker/__init__.py:145-149 | a reading stronger than every other room's makes its room the current room |
| `RoomData.SelectAfterRemove` | custom_components/format_ble_tracker/__init__.py:166-170 | forgetting a room other than the current one keeps the current room |
| `RoomData.RemovedNotSelected` | custom_components/format_ble_tracker/__init__.py:166-170 | a room that was just forgotten is never the current room |
| `RoomData.TieGoesToFirstInserted` | custom_components/format_ble_tracker/__init__.py:113-124 | of two rooms with equal greatest RSSI, the later-inserted one is never selected, and the earlier one is when no room before it is as strong |
| `Topics.Split` | custom_components/format_ble_tracker/__init__.py:145 | `split("/")` yields at least one part and no part contains `/` |
| `Topics.JoinSplit` | custom_components/format_ble_tracker/__init__.py:145 | joining the parts of a split with `/` gives back the topic |
| `Topics.SplitJoin` | custom_components/format_ble_tracker/__init__.py:60 | joining parts without `/` and splitting again gives back the parts |
| `Topics.RoomOfTopic` | custom_components/format_ble_tracker/__init__.py:145 | the room key is the third level; it exists exactly when the topic has at least three levels, and it holds no `/` |
| `Topics.SubscriptionTopic` | custom_components/format_ble_tracker/__init__.py:60 | the subscription filter: the root topic, the beacon id and `+`, joined by `/` (its levels are stated by `Topics.SubscriptionLevels`) |
| `Topics.SubscriptionLevels` | custom_components/format_ble_tracker/__init__.py:60 | the subscription filter has the three levels root, beacon id and `+` |
| `Topics.RoomOfRoomTopic` | custom_components/format_ble_tracker/__init__.py:145 | for a topic root/id/room with no `/` in id or room, the room key is that room |
| `Topics.SubscribedTopicHasRoom` | custom_components/format_ble_tracker/__init__.py:60 | every topic matching the subscription has a room level, so the index never fails, and it is the room topic of that room |
| `Coordinator.ExpirationDelay` | custom_components/format_ble_tracker/__init__.py:162-164 | the delay is 60 times the set minutes, or 120 seconds while no value was ever set |
| `Coordinator.RearmedNotDue` | custom_components/format_ble_tracker/__init__.py:153-160 | a timer cancelled and re-armed to a deadline cannot fire before that deadline |
| `Coordinator.TooOld` | custom_components/format_ble_tracker/__init__.py:138-143 | a message without a timestamp is never too old; one with a timestamp is too old exactly when the timestamp plus the delay is not after now |
| `Coordinator.BeaconCoordinator.constructor` | custom_components/format_ble_tracker/__init__.py:98-107 | no readings, no timers, no room and no delay set; the name falls back to the beacon id |
| `Coordinator.BeaconCoordinator.Refresh` | custom_components/format_ble_tracker/__init__.py:109-125 | the room becomes the selection over the readings; readings, timers and delay are untouched |
| `Coordinator.BeaconCoordinator.ScheduleDataExpiration` | custom_components/format_ble_tracker/__init__.py:151-160 | the room's timer, old or new, is set to fire one delay from now; no other timer changes |
| `Coordinator.BeaconCoordinator.MessageReceived` | custom_components/format_ble_tracker/__init__.py:131-160 | stale exactly when the timestamp is at least one delay old; no room level exactly when fresh and the topic has fewer than three levels; a dropped message changes nothing; an admitted one stores the RSSI for its room, re-arms that room's timer only, keeps readings, timers and room consistent, and its room cannot expire before now plus the delay |
| `Coordinator.BeaconCoordinator.Admit` | custom_components/format_ble_tracker/__init__.py:147-149 | the admitted path: the reading is stored, only the room's timer is re-armed to now plus the delay so the room cannot expire earlier, the delay is unchanged and readings, timers and room stay consistent |
| `Coordinator.BeaconCoordinator.StoreReading` | custom_components/format_ble_tracker/__init__.py:147-148 | the timer is re-armed and the reading stored; rooms with readings stay the rooms with timers |
| `Coordinator.BeaconCoordinator.ExpireData` | custom_components/format_ble_tracker/__init__.py:156-170 | runs only when the room's timer is armed and its deadline has passed; the room's reading and timer are deleted, nothing else is, and the current room is recomputed |
| `Coordinator.BeaconCoordinator.OnExpirationTimeChanged` | custom_components/format_ble_tracker/__init__.py:172-178 | `None` changes nothing; otherwise the delay is set and every armed timer, and no other, is re-armed to now plus the new delay, so no room can expire before then; readings and room are unchanged |
| `DeviceTracker.BleTrackerState` | custom_components/format_ble_tracker/device_tracker.py:67-72 | `not_home` exactly when the coordinator has no room, `home` otherwise |
| `DeviceTracker.BleTrackerAwayIffNoReadings` | custom_components/format_ble_tracker/device_tracker.py:67-72 | a beacon is away exactly when no room has a reading, and exactly when no timer is armed |
| `DeviceTracker.MergedState` | custom_components/format_ble_tracker/device_tracker.py:134-147 | under OR or AND logic the merged state is `home`, `not_home` or `unknown`; under any other logic it is the previous state or `unknown`; it is `home` only when some member is home, or when another logic keeps a previous `home` |
| `DeviceTracker.MergedStateIsFold` | custom_components/format_ble_tracker/device_tracker.py:131-148 | under OR and AND logic the merged state equals a fold over the members in which unknown is neutral, and it does not depend on the previous state |
| `DeviceTracker.MergedUnknownWithoutKnownMembers` | custom_components/format_ble_tracker/device_tracker.py:135-136 | with no member home or away the merged state is unknown, whatever the logic |
| `DeviceTracker.MergedOr` | custom_components/format_ble_tracker/device_tracker.py:138-142 | OR logic with a known member: away exactly when some member is away, else home |
| `DeviceTracker.MergedAnd` | custom_components/format_ble_tracker/device_tracker.py:143-147 | AND logic with a known member: home exactly when some member is home, else away |
| `DeviceTracker.OrHomeImpliesAndHome` | custom_components/format_ble_tracker/device_tracker.py:138-147 | home under OR logic implies home under AND logic for the same member states |
| `DeviceTracker.ExtraStateAttributes` | custom_components/format_ble_tracker/device_tracker.py:151-165 | no attributes exactly when there are no members; otherwise the members, and a label for OR and AND logic and none for any other logic |
| `DeviceTracker.MergedTracker.constructor` | custom_components/format_ble_tracker/device_tracker.py:85-94 | every member maps to `None` and the merged state is unknown |
| `DeviceTracker.MergedTracker.OnStateChanged` | custom_components/format_ble_tracker/device_tracker.py:131-148 | only the member's entry changes; the merged state is recomputed from all member states and the previous merged state |
| `DeviceTracker.OtherLogicStaysUnknown` | custom_components/format_ble_tracker/device_tracker.py:137-147 | with a logic that is neither OR nor AND the merged state stays unknown forever |
| `ConfigFlow.StripLeading` | custom_components/format_ble_tracker/config_flow.py:91 | drops a prefix made only of whitespace and stops at the first character that is not whitespace |
| `ConfigFlow.IsSpace` | custom_components/format_ble_tracker/config_flow.py:91 | the characters `strip()` removes; none of them is a hex digit, a lower-case ASCII letter, `:` or `-` |
| `ConfigFlow.StripTrailing` | custom_components/format_ble_tracker/config_flow.py:91 | drops a suffix made only of whitespace and stops at the last character that is not whitespace |
| `ConfigFlow.Strip` | custom_components/format_ble_tracker/config_flow.py:91 | the stripped id neither starts nor ends with whitespace |
| `ConfigFlow.StripUnchanged` | custom_components/format_ble_tracker/config_flow.py:91 | stripping a string without whitespace at its ends leaves it alone |
| `ConfigFlow.UpperChar` | custom_components/format_ble_tracker/config_flow.py:91 | `upper()` of one character gives one or two characters with no lower-case ASCII letter; hex digits, `:` and `-` are kept, and `a`..`f` become hex digits |
| `ConfigFlow.Upper` | custom_components/format_ble_tracker/config_flow.py:91 | `upper()` leaves no lower-case ASCII letter and yields between one and two characters per input character |
| `ConfigFlow.UpperInPlace` | custom_components/format_ble_tracker/config_flow.py:91 | without U+FB00, `upper()` keeps the length and maps each position by the one-character rule |
| `ConfigFlow.Normalize` | custom_components/format_ble_tracker/config_flow.py:91 | `strip().upper()` leaves no lower-case ASCII letter |
| `ConfigFlow.UpperIdempotent` | custom_components/format_ble_tracker/config_flow.py:91 | upper-casing twice is upper-casing once |
| `ConfigFlow.NormalizeIdempotent` | custom_components/format_ble_tracker/config_flow.py:91 | `strip().upper()` applied to its own result changes nothing |
| `ConfigFlow.ReMatch` | custom_components/format_ble_tracker/config_flow.py:92 | `re.match` with `^`...`$`: a match is as long as the pattern, or one longer with a final newline |
| `ConfigFlow.IsBeaconId` | custom_components/format_ble_tracker/config_flow.py:92 | the id is accepted by either pattern; an accepted id has 17 or 36 characters, one more with a final newline |
| `ConfigFlow.NormalizedReMatch` | custom_components/format_ble_tracker/config_flow.py:92 | a normalised id never ends in a newline, so `re.match` with `$` accepts it exactly when the whole id fits the pattern |
| `ConfigFlow.MacPatternShape` | custom_components/format_ble_tracker/const.py:8 | the MAC pattern accepts exactly the 17-character strings with `:` at every third position and uppercase hex digits elsewhere |
| `ConfigFlow.UuidPatternShape` | custom_components/format_ble_tracker/const.py:9 | the UUID pattern accepts exactly the 36-character strings with `-` at 8, 13, 18 and 23 and uppercase hex digits elsewhere |
| `ConfigFlow.FullMatchNoSeparator` | custom_components/format_ble_tracker/const.py:8-9 | an id matching either pattern holds no `/` |
| `ConfigFlow.StepUser` | custom_components/format_ble_tracker/config_flow.py:71-81 | no input or no action shows the menu; `add_device` goes to the add step; any other action goes to the combine step |
| `ConfigFlow.StepAddDevice` | custom_components/format_ble_tracker/config_flow.py:83-101 | the form exactly when no id is given; `not_id` exactly when the normalised id matches neither pattern; `already_configured` exactly when it matches and exists; an entry is created exactly when the normalised id matches and is new, holds that id and is titled with the given name or else the id; never a `KeyError` |
| `ConfigFlow.StepCombineDevices` | custom_components/format_ble_tracker/config_flow.py:103-122 | the form exactly when no members are given; `less_than_two_children` exactly when fewer than two; with two or more, a `KeyError` for the name exactly when it is missing, one for the merge logic exactly when the name is given and the logic is missing, and otherwise an entry carrying the name, the logic and the member list unchanged |
| `ConfigFlow.CreatedBeaconId` | custom_components/format_ble_tracker/config_flow.py:91-101 | a created id is its own normal form, matches a pattern in full, and the room topic built from it gives back any room without `/` |
| `ConfigFlow.TypedMacAccepted` | custom_components/format_ble_tracker/config_flow.py:91-101 | a new MAC typed in lower or mixed case is accepted: the entry stores its upper-case form, as id and as title |
| `ConfigFlow.CreatedFromLowerCaseMac` | custom_components/format_ble_tracker/config_flow.py:91-101 | `aa:bb:cc:dd:ee:ff` typed into the form creates an entry |
| `ExpirationNumber.Clamp` | custom_components/format_ble_tracker/number.py:47 | the value lands in 1..10, is unchanged inside the range, and becomes 1 below it and 10 above it |
| `ExpirationNumber.ClampIdempotent` | custom_components/format_ble_tracker/number.py:47 | clamping a clamped value changes nothing |
| `ExpirationNumber.ClampMonotone` | custom_components/format_ble_tracker/number.py:47 | clamping keeps the order of values |
| `ExpirationNumber.ClampedDelayRange` | custom_components/format_ble_tracker/number.py:45-48 | a delay set with the slider lies between 60 and 600 seconds |
| `ExpirationNumber.InitialValue` | custom_components/format_ble_tracker/number.py:42 | 2 when nothing was restored, otherwise the restored value as it is |
| `ExpirationNumber.RestoredValueNotClamped` | custom_components/format_ble_tracker/number.py:42-43 | a restored 30 reaches the coordinator as a 30-minute delay, unclamped |
| `ExpirationNumber.BleDataExpirationNumber.constructor` | custom_components/format_ble_tracker/number.py:27-37 | the entity is bound to its coordinator, named after it, and holds no value yet |
| `ExpirationNumber.BleDataExpirationNumber.UpdateValue` | custom_components/format_ble_tracker/number.py:51-55 | the value is kept and exactly that value is handed to the coordinator's delay handler |
| `ExpirationNumber.BleDataExpirationNumber.AsyncSetNativeValue` | custom_components/format_ble_tracker/number.py:45-48 | the clamped value becomes the entity's value and the coordinator's delay, and every timer is re-armed with it |
| `ExpirationNumber.BleDataExpirationNumber.AsyncAddedToHass` | custom_components/format_ble_tracker/number.py:39-43 | the restored value, or 2, becomes the entity's value and is handed to the coordinator |

## Left out

- MQTT plumbing is not modelled: subscribing, publishing the alive and dead
  announcements, and setting up and unloading platforms are network and host
  I/O. Only the subscription topic string is modelled.
- Payload decoding (JSON and schema coercion) is not modelled. A message
  arrives already decoded as a topic, an integer RSSI and an optional integer
  timestamp. A malformed payload is dropped before any state is touched.
- The clock (`time.time()`) is the parameter `now`, in whole seconds.
- asyncio is not modelled. A timer is its deadline, and its firing is a call
  of `ExpireData` at a time not before that deadline. A race in which an
  already-fired expiry runs after the room's timer was re-armed is outside the
  model.
- `Coordinator.BeaconCoordinator.ExpireData` requires the room to have a
  timer that is due, because only a timer that fires calls it and the source
  deletes the room without checking, so it would raise `KeyError` otherwise.
- `Coordinator.BeaconCoordinator.OnExpirationTimeChanged` re-arms the timers
  in an arbitrary order. Every timer gets the same deadline, so the order
  does not matter.
- `Topics.MatchesFilter` models MQTT filters whose only wildcard is `+`.
  The `#` wildcard is not used by the integration.
- `ConfigFlow.UpperChar` maps the ASCII letters and U+FB00 (whose upper case
  is "FF"). Other Unicode case mappings are not modelled.
- The config entry registry (`async_set_unique_id` and the "already
  configured" check) is a set of configured ids passed to the step.
- `number.py` receives a float and truncates it with `int()`. The model takes
  an integer.
- Home Assistant entity glue is not modelled: writing state, restore
  storage, entity ids, device info, and the listener registration of the
  merged tracker, which only drives `OnStateChanged`. `common.py` and
  `sensor.py` are not part of this model.
- The older copies of the integration at the repository root are not part
  of this model.
- The merge-logic constants are not given in the sources. They are two
  distinct values, `AwayWhenOr` and `AwayWhenAnd`; any other stored value is
  `OtherLogic`.
