/**
 * The Battery Service of src/ble/services/bs/bas.c: one static battery
 * level, guarded to stay a percentage, served to readers and notified to
 * subscribers when it changes.
 */
module Bas {
  import opened Common

  const MaxLevel := 100
  const InitialLevel := 100
  const EInval := 22     // EINVAL
  const ENotConn := 128  // ENOTCONN

  /** The result of bt_bas_set_battery_level for an accepted level: "not connected" counts as success. */
  function NotifyResult(notifyRc: int): (rc: int)
    ensures rc == 0 <==> notifyRc == 0 || notifyRc == -ENotConn
    ensures notifyRc != -ENotConn ==> rc == notifyRc
  {
    if notifyRc == -ENotConn then 0 else notifyRc
  }

  /** The level after a set request: an accepted level replaces it, a rejected one leaves it. */
  function LevelAfter(current: byte, requested: byte): (next: byte)
    ensures current <= MaxLevel ==> next <= MaxLevel
    ensures next == requested || next == current
    ensures next == requested <==> requested <= MaxLevel || requested == current
  {
    if requested > MaxLevel then current else requested
  }

  /** From the initial level, any sequence of set requests keeps the level a percentage. */
  lemma {:induction false} LevelStaysPercentage(requests: seq<byte>)
    ensures LevelsAfter(InitialLevel, requests) <= MaxLevel
  {
    LevelsAfterBounded(InitialLevel, requests);
  }

  /** The level after applying `requests` in order. */
  function LevelsAfter(current: byte, requests: seq<byte>): byte
    decreases |requests|
  {
    if requests == [] then current else LevelsAfter(LevelAfter(current, requests[0]), requests[1..])
  }

  lemma {:induction false} LevelsAfterBounded(current: byte, requests: seq<byte>)
    requires current <= MaxLevel
    ensures LevelsAfter(current, requests) <= MaxLevel
    decreases |requests|
  {
    if requests != [] {
      LevelsAfterBounded(LevelAfter(current, requests[0]), requests[1..]);
    }
  }

  class BatteryService {
    var batteryLevel: byte

    ghost predicate Valid()
      reads this
    {
      batteryLevel <= MaxLevel
    }

    constructor ()
      ensures Valid() && batteryLevel == InitialLevel
    {
      batteryLevel := InitialLevel;
    }

    /**
     * bt_bas_set_battery_level: a level above 100 is refused with -EINVAL,
     * with no notification and nothing changed; otherwise it is stored and
     * notified, and the notification's result (`notifyRc`) is returned with
     * "not connected" mapped to 0.
     */
    method SetBatteryLevel(level: byte, notifyRc: int) returns (rc: int, notified: Option<byte>)
      requires Valid()
      modifies this
      ensures Valid()
      ensures batteryLevel == LevelAfter(old(batteryLevel), level)
      ensures level > MaxLevel ==> rc == -EInval && notified == None
      ensures level <= MaxLevel ==> rc == NotifyResult(notifyRc) && notified == Some(level)
    {
      if level > MaxLevel {
        return -EInval, None;
      }
      batteryLevel := level;
      return NotifyResult(notifyRc), Some(level);
    }

    /** bt_bas_get_battery_level. */
    method GetBatteryLevel() returns (level: byte)
      requires Valid()
      ensures level == batteryLevel && level <= MaxLevel
    {
      return batteryLevel;
    }

    /** read_blvl: the one-byte value handed to the GATT read, a copy of the level. */
    method ReadBlvl() returns (value: seq<byte>)
      requires Valid()
      ensures value == [batteryLevel] && value[0] <= MaxLevel
    {
      var lvl8 := batteryLevel;
      return [lvl8];
    }
  }
}
