/**
 * `BleDataExpirationNumber` of `custom_components/format_ble_tracker/number.py`:
 * the slider that sets a beacon's expiry delay, in minutes, and forwards it
 * to the beacon's coordinator.
 */
module ExpirationNumber {
  import opened Wrappers
  import Coordinator

  /** The slider's declared range and step. */
  const MinValue: int := 1
  const MaxValue: int := 10
  const Step: int := 1

  /** The value used when nothing was restored. */
  const RestoreDefault: int := 2

  /** `min(10, max(1, value))`: the set value brought into the slider's range. */
  function Clamp(value: int): (val: int)
    ensures MinValue <= val <= MaxValue
    ensures MinValue <= value <= MaxValue ==> val == value
    ensures value < MinValue ==> val == MinValue
    ensures value > MaxValue ==> val == MaxValue
  {
    var atLeastOne := if value < 1 then 1 else value;
    if atLeastOne > 10 then 10 else atLeastOne
  }

  /** Clamping a clamped value changes nothing. */
  lemma ClampIdempotent(value: int)
    ensures Clamp(Clamp(value)) == Clamp(value)
  {
  }

  /** Clamping keeps the order of values. */
  lemma ClampMonotone(a: int, b: int)
    requires a <= b
    ensures Clamp(a) <= Clamp(b)
  {
  }

  /** A delay set through the slider lies between one and ten minutes. */
  lemma ClampedDelayRange(value: int)
    ensures 60 <= Coordinator.ExpirationDelay(Some(Clamp(value))) <= 600
  {
  }

  /** The number data kept by state restoration; its value may be missing. */
  datatype NumberData = NumberData(nativeValue: Option<int>)

  /**
   * The value `async_added_to_hass` passes on: the default when nothing was
   * restored, otherwise the restored value as it is, not clamped.
   */
  function InitialValue(restored: Option<NumberData>): (value: Option<int>)
    ensures restored.None? ==> value == Some(RestoreDefault)
    ensures restored.Some? ==> value == restored.value.nativeValue
  {
    match restored
    case None => Some(2)
    case Some(data) => data.nativeValue
  }

  /** A restored value outside the slider's range reaches the coordinator unchanged. */
  lemma RestoredValueNotClamped()
    ensures InitialValue(Some(NumberData(Some(30)))) == Some(30)
    ensures Coordinator.ExpirationDelay(InitialValue(Some(NumberData(Some(30))))) == 1800
  {
  }

  class BleDataExpirationNumber {
    const coordinator: Coordinator.BeaconCoordinator
    const name: string
    /** `_attr_native_value`; `None` until a value was set. */
    var nativeValue: Option<int>

    constructor (coordinator: Coordinator.BeaconCoordinator)
      ensures this.coordinator == coordinator
      ensures name == coordinator.name + " expiration delay"
      ensures nativeValue.None?
    {
      this.coordinator := coordinator;
      name := coordinator.name + " expiration delay";
      nativeValue := None;
    }

    /** `update_value`: keep the value and hand exactly that value to the coordinator. */
    method UpdateValue(value: Option<int>, now: int)
      requires coordinator.Valid()
      modifies this`nativeValue, coordinator`expirationTime, coordinator`timers
      ensures nativeValue == value
      ensures coordinator.Valid()
      ensures value.None? ==>
        coordinator.expirationTime == old(coordinator.expirationTime)
        && coordinator.timers == old(coordinator.timers)
      ensures value.Some? ==>
        coordinator.expirationTime == value
        && Coordinator.RearmedAll(old(coordinator.timers), coordinator.timers, now + 60 * value.value)
    {
      nativeValue := value;
      coordinator.OnExpirationTimeChanged(value, now);
    }

    /** `async_set_native_value`: the user's value, clamped, goes to `update_value`. */
    method AsyncSetNativeValue(value: int, now: int)
      requires coordinator.Valid()
      modifies this`nativeValue, coordinator`expirationTime, coordinator`timers
      ensures nativeValue == Some(Clamp(value))
      ensures coordinator.Valid()
      ensures coordinator.expirationTime == Some(Clamp(value))
      ensures Coordinator.RearmedAll(old(coordinator.timers), coordinator.timers, now + 60 * Clamp(value))
    {
      UpdateValue(Some(Clamp(value)), now);
    }

    /** `async_added_to_hass`: the restored value, or the default, goes to `update_value`. */
    method AsyncAddedToHass(restored: Option<NumberData>, now: int)
      requires coordinator.Valid()
      modifies this`nativeValue, coordinator`expirationTime, coordinator`timers
      ensures nativeValue == InitialValue(restored)
      ensures coordinator.Valid()
      ensures nativeValue.None? ==>
        coordinator.expirationTime == old(coordinator.expirationTime)
        && coordinator.timers == old(coordinator.timers)
      ensures nativeValue.Some? ==>
        coordinator.expirationTime == nativeValue
        && Coordinator.RearmedAll(old(coordinator.timers), coordinator.timers, now + 60 * nativeValue.value)
    {
      UpdateValue(InitialValue(restored), now);
    }
  }
}
