/**
 * The characteristic state of the Wearable Exposure Notification Service,
 * src/ble/services/wens/wens.c: the static ENS Settings, Temporary Key
 * List, WEN Status and latest ENS Record, overwritten by the GATT write
 * callbacks and by the notify and indicate functions.
 *
 * Each characteristic is the byte image of its C struct. The struct sizes
 * depend on compiler padding, so the initial ENS Settings image and the
 * sizes of WEN Status and ENS Record are constructor parameters.
 */
module Wens {
  import opened Common

  /** BT_ATT_ERR_INVALID_ATTRIBUTE_LEN, returned through BT_GATT_ERR as its negation. */
  const InvalidAttributeLen := 0x0d

  /** The initial Temporary Key List: timestamp 0x43421277 (little-endian uint32), then a zero 16-byte key. */
  const InitialTempKeyList: seq<byte> := Le32(0x4342_1277) + Zeros(16)

  /** memcpy(&characteristic, buf, len) with len at most the size: the first bytes replaced, the rest kept. */
  function PrefixOverwrite(value: seq<byte>, data: seq<byte>): (r: seq<byte>)
    requires |data| <= |value|
  {
    data + value[|data|..]
  }

  /** An accepted write keeps the size, lands at byte 0, and leaves the bytes past it as they were. */
  lemma PrefixOverwriteFrame(value: seq<byte>, data: seq<byte>)
    requires |data| <= |value|
    ensures |PrefixOverwrite(value, data)| == |value|
    ensures PrefixOverwrite(value, data)[..|data|] == data
    ensures forall i :: |data| <= i < |value| ==> PrefixOverwrite(value, data)[i] == value[i]
  {
  }

  /** Writing the same bytes twice is writing them once, and a full-size write replaces the whole value. */
  lemma PrefixOverwriteIdempotent(value: seq<byte>, data: seq<byte>)
    requires |data| <= |value|
    ensures PrefixOverwrite(PrefixOverwrite(value, data), data) == PrefixOverwrite(value, data)
    ensures |data| == |value| ==> PrefixOverwrite(value, data) == data
  {
  }

  /** A later write covering an earlier one erases every trace of it. */
  lemma {:induction false} PrefixOverwriteAbsorbs(value: seq<byte>, first: seq<byte>, second: seq<byte>)
    requires |first| <= |second| <= |value|
    ensures PrefixOverwrite(PrefixOverwrite(value, first), second) == PrefixOverwrite(value, second)
  {
    var once := PrefixOverwrite(value, first);
    assert once[|second|..] == value[|second|..];
  }

  /** The return value of a write callback: the length written, or the invalid-length ATT error. */
  function WriteResult(size: nat, len: u16): (rc: int)
    ensures rc >= 0 <==> len <= size
    ensures rc >= 0 ==> rc == len
    ensures rc < 0 ==> rc == -InvalidAttributeLen
  {
    if len > size then -InvalidAttributeLen else len
  }

  class WensService {
    var ensSettings: seq<byte>
    var tempKeyList: seq<byte>
    var wenStatus: seq<byte>
    var records: seq<byte>  // the latest ENS Record handed to wens_ens_log_notify
    const ensSettingsSize: nat
    const wenStatusSize: nat
    const recordSize: nat

    ghost predicate Valid()
      reads this
    {
      && |ensSettings| == ensSettingsSize && |tempKeyList| == |InitialTempKeyList|
      && |wenStatus| == wenStatusSize && |records| == recordSize
    }

    /** The static initialisers; `wen_status` and `records` start zeroed. */
    constructor (initialSettings: seq<byte>, wenStatusSize: nat, recordSize: nat)
      ensures Valid()
      ensures ensSettings == initialSettings && ensSettingsSize == |initialSettings|
      ensures wenStatus == Zeros(wenStatusSize) && this.wenStatusSize == wenStatusSize
      ensures tempKeyList == InitialTempKeyList && records == Zeros(recordSize) && this.recordSize == recordSize
    {
      ensSettings := initialSettings;
      ensSettingsSize := |initialSettings|;
      wenStatus := Zeros(wenStatusSize);
      this.wenStatusSize := wenStatusSize;
      tempKeyList := InitialTempKeyList;
      records := Zeros(recordSize);
      this.recordSize := recordSize;
    }

    /**
     * _write_ens_settings: a write longer than the struct is refused and
     * changes nothing; otherwise the first `len` bytes of `buf` replace the
     * start of the settings. `offset` is not consulted.
     */
    method WriteEnsSettings(buf: seq<byte>, len: u16, offset: u16) returns (rc: int)
      requires Valid() && len <= |buf|
      modifies this
      ensures Valid()
      ensures rc == WriteResult(ensSettingsSize, len)
      ensures ensSettings == (if len <= ensSettingsSize then PrefixOverwrite(old(ensSettings), buf[..len]) else old(ensSettings))
      ensures tempKeyList == old(tempKeyList) && wenStatus == old(wenStatus) && records == old(records)
    {
      if len > |ensSettings| {
        return -InvalidAttributeLen;
      }
      ensSettings := PrefixOverwrite(ensSettings, buf[..len]);
      return len;
    }

    /** _write_temporary_key_list: the same bounded prefix overwrite on the Temporary Key List. */
    method WriteTemporaryKeyList(buf: seq<byte>, len: u16, offset: u16) returns (rc: int)
      requires Valid() && len <= |buf|
      modifies this
      ensures Valid()
      ensures rc == WriteResult(|InitialTempKeyList|, len)
      ensures tempKeyList == (if len <= |InitialTempKeyList| then PrefixOverwrite(old(tempKeyList), buf[..len]) else old(tempKeyList))
      ensures ensSettings == old(ensSettings) && wenStatus == old(wenStatus) && records == old(records)
    {
      if len > |tempKeyList| {
        return -InvalidAttributeLen;
      }
      tempKeyList := PrefixOverwrite(tempKeyList, buf[..len]);
      return len;
    }

    /** _write_racp: any payload is accepted and nothing changes. */
    method WriteRacp(buf: seq<byte>, len: u16, offset: u16) returns (rc: int)
      ensures rc == len
    {
      return len;
    }

    /** _write_wen_status: the same bounded prefix overwrite on the WEN Status. */
    method WriteWenStatus(buf: seq<byte>, len: u16, offset: u16) returns (rc: int)
      requires Valid() && len <= |buf|
      modifies this
      ensures Valid()
      ensures rc == WriteResult(wenStatusSize, len)
      ensures wenStatus == (if len <= wenStatusSize then PrefixOverwrite(old(wenStatus), buf[..len]) else old(wenStatus))
      ensures ensSettings == old(ensSettings) && tempKeyList == old(tempKeyList) && records == old(records)
    {
      if len > |wenStatus| {
        return -InvalidAttributeLen;
      }
      wenStatus := PrefixOverwrite(wenStatus, buf[..len]);
      return len;
    }

    /** wens_get_ens_settings: a copy of the current settings, and 0. */
    method GetEnsSettings() returns (rc: int, settings: seq<byte>)
      ensures rc == 0 && settings == ensSettings
    {
      return 0, ensSettings;
    }

    /**
     * wens_ens_log_notify: the record becomes the latest record, then the
     * notification's result (`notifyRc`) is returned.
     */
    method EnsLogNotify(record: seq<byte>, notifyRc: int) returns (rc: int)
      requires Valid() && |record| == recordSize
      modifies this
      ensures Valid() && rc == notifyRc && records == record
      ensures ensSettings == old(ensSettings) && tempKeyList == old(tempKeyList) && wenStatus == old(wenStatus)
    {
      records := record;
      return notifyRc;
    }

    /**
     * wens_ens_settings_indicate: the settings are stored whatever the
     * indication's result (`indicateRc`), which is returned.
     */
    method EnsSettingsIndicate(settings: seq<byte>, indicateRc: int) returns (rc: int)
      requires Valid() && |settings| == ensSettingsSize
      modifies this
      ensures Valid() && rc == indicateRc && ensSettings == settings
      ensures tempKeyList == old(tempKeyList) && wenStatus == old(wenStatus) && records == old(records)
    {
      ensSettings := settings;
      return indicateRc;
    }
  }
}
