/**
 * `BeaconCoordinator` of `custom_components/format_ble_tracker/__init__.py`:
 * per-beacon room readings, one expiry timer per room, and the current room.
 *
 * Time is an explicit integer `now` in seconds. An armed timer is its
 * deadline; cancelling and re-arming a room's timer overwrites that deadline.
 * A timer fires, as the method `ExpireData`, only once its deadline has passed.
 */
module Coordinator {
  import opened Wrappers
  import opened RoomData
  import Topics

  /** `default_expiration_time`, in minutes. */
  const DefaultExpirationTime: int := 2

  /**
   * `get_expiration_time()`: the expiry delay in seconds, from the minutes
   * set by the user or, while none was ever set, from the default.
   */
  function ExpirationDelay(expirationTime: Option<int>): (seconds: int)
    ensures expirationTime.None? ==> seconds == 120
    ensures expirationTime.Some? ==> seconds == 60 * expirationTime.value
  {
    (if expirationTime.Some? then expirationTime.value else DefaultExpirationTime) * 60
  }

  /**
   * A message is too old when it carries a timestamp at least one delay in
   * the past; a message without a timestamp never is.
   */
  predicate TooOld(timestamp: Option<int>, now: int, delay: int): (stale: bool)
    ensures timestamp.None? ==> !stale
    ensures timestamp.Some? ==> (stale <==> timestamp.value + delay <= now)
  {
    timestamp.Some? && now - timestamp.value >= delay
  }

  /** The timer of room `r` is armed and its deadline is not after `now`: it may fire. */
  predicate Due(timers: map<Room, int>, r: Room, now: int) {
    r in timers && timers[r] <= now
  }

  /** No expiry of room `r` can fire before time `d`. */
  ghost predicate NotDueBefore(timers: map<Room, int>, r: Room, d: int) {
    forall t :: t < d ==> !Due(timers, r, t)
  }

  /** A timer just re-armed to `d` cannot fire before `d`. */
  lemma RearmedNotDue(timers: map<Room, int>, r: Room, d: int)
    ensures NotDueBefore(timers[r := d], r, d)
  {
  }

  /** Every timer of `before` is re-armed to `deadline`, and no timer is added or dropped. */
  ghost predicate RearmedAll(before: map<Room, int>, after: map<Room, int>, deadline: int) {
    after.Keys == before.Keys && forall r :: r in after ==> after[r] == deadline
  }

  /** What became of a message handed to `message_received`. */
  datatype Admission =
    | Admitted(room: Room)
    | Stale         // dropped: timestamp too old
    | NoRoomLevel   // `split("/")[2]` raised IndexError

  class BeaconCoordinator {
    const mac: string
    const name: string
    /** `expiration_time` in minutes; `None` while the attribute was never set. */
    var expirationTime: Option<int>
    /** `room_data`, in insertion order. */
    var roomData: seq<Entry>
    /** `room_expiration_timers`: the deadline of each room's armed timer. */
    var timers: map<Room, int>
    /** `room`: the current room. */
    var room: Option<Room>

    /**
     * A room has a reading exactly when it has an armed timer, and the
     * current room is the selection over the readings.
     */
    ghost predicate Valid()
      reads this`roomData, this`timers, this`room
    {
      Consistent() && room == SelectRoom(roomData)
    }

    /** The rooms with a reading are the rooms with an armed timer. */
    ghost predicate Consistent()
      reads this`roomData, this`timers
    {
      DistinctKeys(roomData) && Keys(roomData) == timers.Keys
    }

    /**
     * The readings are `before` with `rssi` stored for `r`, and the timers are
     * `timersBefore` with the timer of `r` re-armed to `deadline`.
     */
    ghost predicate Stored(before: seq<Entry>, timersBefore: map<Room, int>, r: Room, rssi: int, deadline: int)
      reads this`roomData, this`timers
    {
      roomData == Put(before, r, rssi) && timers == timersBefore[r := deadline]
    }

    /** The name falls back to the beacon id when the entry has none. */
    constructor (mac: string, name: Option<string>)
      ensures Valid()
      ensures this.mac == mac && this.name == (if name.Some? then name.value else mac)
      ensures expirationTime.None? && roomData == [] && timers == map[] && room.None?
    {
      this.mac := mac;
      this.name := if name.Some? then name.value else mac;
      expirationTime := None;
      roomData := [];
      timers := map[];
      room := None;
    }

    /** `_async_update_data` run by `async_refresh`. */
    method Refresh() returns (current: Option<Room>)
      modifies this`room
      ensures room == SelectRoom(roomData) && current == room
      ensures roomData == old(roomData) && timers == old(timers) && expirationTime == old(expirationTime)
    {
      room := SelectRoom(roomData);
      current := room;
    }

    /** `schedule_data_expiration`: cancels the room's timer, if any, and arms a fresh one. */
    method ScheduleDataExpiration(r: Room, now: int)
      modifies this`timers
      ensures timers == old(timers)[r := now + ExpirationDelay(expirationTime)]
      ensures roomData == old(roomData) && room == old(room) && expirationTime == old(expirationTime)
    {
      timers := timers[r := now + ExpirationDelay(expirationTime)];
    }

    /**
     * `message_received` for a payload already decoded into `rssi` and an
     * optional `timestamp`, received at time `now`.
     */
    method MessageReceived(topic: string, rssi: int, timestamp: Option<int>, now: int)
      returns (outcome: Admission)
      requires Valid()
      modifies this`timers, this`roomData, this`room
      ensures Valid()
      ensures outcome.Stale? <==> TooOld(timestamp, now, ExpirationDelay(expirationTime))
      ensures outcome.NoRoomLevel? <==>
        !TooOld(timestamp, now, ExpirationDelay(expirationTime)) && Topics.RoomOfTopic(topic).None?
      ensures !outcome.Admitted? ==>
        roomData == old(roomData) && timers == old(timers) && room == old(room)
      ensures outcome.Admitted? ==>
        && Topics.RoomOfTopic(topic) == Some(outcome.room)
        && Stored(old(roomData), old(timers), outcome.room, rssi, now + ExpirationDelay(expirationTime))
        && NotDueBefore(timers, outcome.room, now + ExpirationDelay(expirationTime))
    {
      if TooOld(timestamp, now, ExpirationDelay(expirationTime)) {
        return Stale;
      }
      var roomTopic := Topics.RoomOfTopic(topic);
      if roomTopic.None? {
        return NoRoomLevel;
      }
      outcome := Admitted(roomTopic.value);
      Admit(roomTopic.value, rssi, now);
    }

    /**
     * The end of `message_received` for an admitted message: re-arm the room's
     * timer, store the reading and refresh the current room.
     */
    method Admit(r: Room, rssi: int, now: int)
      requires Valid()
      modifies this`timers, this`roomData, this`room
      ensures Valid() && expirationTime == old(expirationTime)
      ensures Stored(old(roomData), old(timers), r, rssi, now + ExpirationDelay(expirationTime))
      ensures NotDueBefore(timers, r, now + ExpirationDelay(expirationTime))
    {
      ghost var deadline := now + ExpirationDelay(expirationTime);
      StoreReading(r, rssi, now);
      assert Stored(old(roomData), old(timers), r, rssi, deadline);
      var _ := Refresh();
      assert Stored(old(roomData), old(timers), r, rssi, deadline);
      RearmedNotDue(old(timers), r, deadline);
    }

    /** The middle of `message_received`: re-arm the room's timer and store the reading. */
    method StoreReading(r: Room, rssi: int, now: int)
      requires Consistent()
      modifies this`timers, this`roomData
      ensures Consistent()
      ensures Stored(old(roomData), old(timers), r, rssi, now + ExpirationDelay(expirationTime))
      ensures expirationTime == old(expirationTime)
    {
      PutDistinct(roomData, r, rssi);
      ScheduleDataExpiration(r, now);
      roomData := Put(roomData, r, rssi);
    }

    /**
     * `expire_data`, run by the room's timer at time `now`: its reading and its
     * timer go.
     */
    method ExpireData(r: Room, now: int)
      requires Valid() && Due(timers, r, now)
      modifies this`timers, this`roomData, this`room
      ensures Valid()
      ensures roomData == Remove(old(roomData), r)
      ensures timers == old(timers) - {r}
    {
      RemoveKeys(roomData, r);
      roomData := Remove(roomData, r);
      timers := timers - {r};
      var _ := Refresh();
    }

    /**
     * `on_expiration_time_changed`: with a new delay, every armed timer is
     * cancelled and re-armed to fire one new delay from `now`.
     */
    method OnExpirationTimeChanged(newTime: Option<int>, now: int)
      requires Valid()
      modifies this`expirationTime, this`timers
      ensures Valid()
      ensures roomData == old(roomData) && room == old(room)
      ensures newTime.None? ==> expirationTime == old(expirationTime) && timers == old(timers)
      ensures newTime.Some? ==>
        expirationTime == newTime && RearmedAll(old(timers), timers, now + 60 * newTime.value)
      ensures newTime.Some? ==>
        forall r, t :: t < now + 60 * newTime.value ==> !Due(timers, r, t)
    {
      if newTime.None? {
        return;
      }
      expirationTime := newTime;
      var pending := timers.Keys;
      while pending != {}
        invariant expirationTime == newTime && roomData == old(roomData) && room == old(room)
        invariant pending <= timers.Keys && timers.Keys == old(timers).Keys
        invariant forall r :: r in timers && r !in pending ==> timers[r] == now + 60 * newTime.value
        decreases pending
      {
        var r :| r in pending;
        ScheduleDataExpiration(r, now);
        pending := pending - {r};
      }
    }
  }
}
