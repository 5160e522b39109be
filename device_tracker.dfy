/**
 * `custom_components/format_ble_tracker/device_tracker.py`: the per-beacon
 * tracker's home/away state and the merged tracker that combines several
 * trackers' states under OR or AND logic.
 *
 * A member's state is `None` or any state string; only "home" and
 * "not_home" are known presences.
 */
module DeviceTracker {
  import opened Wrappers
  import opened RoomData
  import Coordinator

  const StateHome: string := "home"
  const StateNotHome: string := "not_home"
  const StateUnknown: string := "unknown"

  /**
   * The configured merge logic. `AWAY_WHEN_OR` and `AWAY_WHEN_AND` are two
   * distinct values; anything else stored in the entry is kept as is.
   */
  datatype MergeLogic = AwayWhenOr | AwayWhenAnd | OtherLogic(raw: string)

  /** `BleDeviceTracker.state`: away exactly when the coordinator has no room. */
  function BleTrackerState(room: Option<Room>): (state: string)
    ensures state == StateNotHome <==> room.None?
    ensures state == StateHome <==> room.Some?
  {
    if room.None? then StateNotHome else StateHome
  }

  /** A beacon is away exactly when no room holds a live reading for it. */
  lemma BleTrackerAwayIffNoReadings(c: Coordinator.BeaconCoordinator)
    requires c.Valid()
    ensures BleTrackerState(c.room) == StateNotHome <==> c.roomData == []
    ensures BleTrackerState(c.room) == StateNotHome <==> c.timers == map[]
  {
    if c.roomData != [] {
      KeysAt(c.roomData, 0);
    }
  }

  /**
   * The merged state computed by `on_state_changed` from the set of member
   * states, the logic, and the merged state before the change.
   */
  function MergedState(states: set<Option<string>>, logic: MergeLogic, previous: string): (r: string)
    ensures !logic.OtherLogic? ==> r == StateHome || r == StateNotHome || r == StateUnknown
    ensures logic.OtherLogic? ==> r == previous || r == StateUnknown
    ensures r == StateHome ==> Some(StateHome) in states || (logic.OtherLogic? && r == previous)
  {
    if Some(StateHome) !in states && Some(StateNotHome) !in states then StateUnknown
    else match logic
      case AwayWhenOr => if Some(StateNotHome) in states then StateNotHome else StateHome
      case AwayWhenAnd => if Some(StateHome) in states then StateHome else StateNotHome
      case OtherLogic(_) => previous
  }

  /** A member's presence as a three-valued fact. */
  datatype Presence = Unknown | Home | Away

  function Classify(state: Option<string>): Presence {
    if state == Some(StateHome) then Home
    else if state == Some(StateNotHome) then Away
    else Unknown
  }

  function Render(p: Presence): string {
    match p
    case Unknown => StateUnknown
    case Home => StateHome
    case Away => StateNotHome
  }

  /**
   * Combining two presences: an unknown presence is neutral; between home
   * and away, OR logic lets away win and AND logic lets home win.
   */
  function Combine(logic: MergeLogic, a: Presence, b: Presence): Presence
    requires !logic.OtherLogic?
  {
    if a == Unknown then b
    else if b == Unknown then a
    else if a == b then a
    else if logic == AwayWhenOr then Away
    else Home
  }

  /** Reference definition: the presences of the members folded with `Combine`. */
  function Fold(logic: MergeLogic, states: seq<Option<string>>): Presence
    requires !logic.OtherLogic?
  {
    if states == [] then Unknown
    else Combine(logic, Classify(states[0]), Fold(logic, states[1..]))
  }

  /**
   * Under OR and AND logic the merged state is the fold of the members'
   * presences, whatever the previous merged state.
   */
  lemma {:induction false} MergedStateIsFold(logic: MergeLogic, states: seq<Option<string>>, previous: string)
    requires !logic.OtherLogic?
    ensures MergedState((set s | s in states), logic, previous) == Render(Fold(logic, states))
  {
    if states != [] {
      MergedStateIsFold(logic, states[1..], previous);
      assert (set s | s in states) == {states[0]} + (set s | s in states[1..]);
    }
  }

  /** No known member: the merged state is unknown whatever the logic. */
  lemma MergedUnknownWithoutKnownMembers(states: set<Option<string>>, logic: MergeLogic, previous: string)
    requires Some(StateHome) !in states && Some(StateNotHome) !in states
    ensures MergedState(states, logic, previous) == StateUnknown
  {
  }

  /** OR logic: with some member known, away exactly when some member is away. */
  lemma MergedOr(states: set<Option<string>>, previous: string)
    requires Some(StateHome) in states || Some(StateNotHome) in states
    ensures MergedState(states, AwayWhenOr, previous) == StateNotHome <==> Some(StateNotHome) in states
    ensures MergedState(states, AwayWhenOr, previous) == StateHome <==> Some(StateNotHome) !in states
  {
  }

  /** AND logic: with some member known, home exactly when some member is home. */
  lemma MergedAnd(states: set<Option<string>>, previous: string)
    requires Some(StateHome) in states || Some(StateNotHome) in states
    ensures MergedState(states, AwayWhenAnd, previous) == StateHome <==> Some(StateHome) in states
    ensures MergedState(states, AwayWhenAnd, previous) == StateNotHome <==> Some(StateHome) !in states
  {
  }

  /** OR is the stricter logic: home under OR implies home under AND. */
  lemma OrHomeImpliesAndHome(states: set<Option<string>>, p: string, q: string)
    requires MergedState(states, AwayWhenOr, p) == StateHome
    ensures MergedState(states, AwayWhenAnd, q) == StateHome
  {
  }

  /** `extra_state_attributes` of a merged tracker. */
  datatype Attributes = Attributes(includedTrackers: seq<string>, showHomeWhen: Option<string>)

  function ExtraStateAttributes(ids: seq<string>, logic: MergeLogic): (attrs: Option<Attributes>)
    ensures attrs.None? <==> ids == []
    ensures attrs.Some? ==> attrs.value.includedTrackers == ids
    ensures attrs.Some? && logic == AwayWhenOr ==> attrs.value.showHomeWhen == Some("Home when all are home")
    ensures attrs.Some? && logic == AwayWhenAnd ==> attrs.value.showHomeWhen == Some("Home when any is home")
    ensures attrs.Some? && logic.OtherLogic? ==> attrs.value.showHomeWhen.None?
  {
    if |ids| == 0 then None
    else
      var showHomeWhen :=
        if logic == AwayWhenOr then Some("Home when all are home")
        else if logic == AwayWhenAnd then Some("Home when any is home")
        else None;
      Some(Attributes(ids, showHomeWhen))
  }

  /** `MergedDeviceTracker`: one state per member tracker and the merged state. */
  class MergedTracker {
    const uniqueId: string
    const name: string
    const logic: MergeLogic
    const ids: seq<string>
    /** `states`: the last state reported by each member. */
    var states: map<string, Option<string>>
    /** `merged_state`, which is also the tracker's `state`. */
    var mergedState: string

    /** The merged state is always the one the current member states give. */
    ghost predicate Valid()
      reads this
    {
      mergedState == MergedState(states.Values, logic, StateUnknown)
    }

    constructor (entryId: string, name: string, logic: MergeLogic, ids: seq<string>)
      ensures Valid()
      ensures uniqueId == entryId && this.name == name && this.logic == logic && this.ids == ids
      ensures states.Keys == set id | id in ids
      ensures forall id :: id in states ==> states[id].None?
      ensures mergedState == StateUnknown
    {
      uniqueId := entryId;
      this.name := name;
      this.logic := logic;
      this.ids := ids;
      states := map id | id in ids :: None;
      mergedState := StateUnknown;
    }

    /** `on_state_changed`: record one member's new state and recompute the merged state. */
    method OnStateChanged(entityId: string, newState: Option<string>)
      requires Valid()
      modifies this`states, this`mergedState
      ensures Valid()
      ensures states == old(states)[entityId := newState]
      ensures mergedState == MergedState(states.Values, logic, old(mergedState))
    {
      states := states[entityId := newState];
      var values := states.Values;
      if Some(StateHome) !in values && Some(StateNotHome) !in values {
        mergedState := StateUnknown;
      } else if logic == AwayWhenOr {
        if Some(StateNotHome) in values {
          mergedState := StateNotHome;
        } else {
          mergedState := StateHome;
        }
      } else if logic == AwayWhenAnd {
        if Some(StateHome) in values {
          mergedState := StateHome;
        } else {
          mergedState := StateNotHome;
        }
      }
    }
  }

  /** With a logic that is neither OR nor AND the merged state stays unknown. */
  lemma OtherLogicStaysUnknown(t: MergedTracker)
    requires t.Valid() && t.logic.OtherLogic?
    ensures t.mergedState == StateUnknown
  {
  }
}
