/**
 * The GAENS module state declared by src/gaens/gaens.h: the current TEK and
 * its timestamp, the RPIK and AEMK derived from it, the current RPI and the
 * time it was last changed. The header documents each operation; its
 * implementation file is not part of this model, so the contracts below are
 * the header's promises realised on top of crypto.c.
 */
module Gaens {
  import opened Common
  import opened Primitives
  import opened Crypto

  const AemLength := 4

  /** Seconds after which the Bluetooth address, and with it the RPI, must change. */
  const AddressLifetimeSeconds := 600

  /** GAENS_SERVICE_DATA_LENGTH, the length of the advertised service data, when used on its own. */
  const GaensServiceDataLength := RpiLength + AemLength

  /**
   * The macro's body is not parenthesised: `k * GAENS_SERVICE_DATA_LENGTH`
   * expands to `k * RPI_LENGTH + AEM_LENGTH`.
   */
  function MacroTimes(k: int): int
  {
    k * RpiLength + AemLength
  }

  /** The expansion is the intended product only for the factor 1 (2 * ... gives 36, not 40). */
  lemma MacroPrecedence(k: int)
    ensures GaensServiceDataLength == 20
    ensures MacroTimes(k) == k * GaensServiceDataLength <==> k == 1
    ensures MacroTimes(2) == 36
  {
  }

  /** A TEK stamped at interval `tekTimestamp` has expired at interval `n` once its rolling period is over. */
  predicate TekExpiredAt(tekTimestamp: u32, n: u32)
  {
    n >= tekTimestamp + TekRollingPeriod
  }

  /** From the TEK's own start on, it is expired exactly when it is no longer valid. */
  lemma ExpiredIffNoLongerValid(tekTimestamp: u32, n: u32)
    requires tekTimestamp <= n
    ensures TekExpiredAt(tekTimestamp, n) <==> !TekValidAt(tekTimestamp, n)
    ensures !TekExpiredAt(tekTimestamp, n) <==> n - tekTimestamp < TekRollingPeriod
  {
  }

  class Gaens {
    const crypto: CryptoContext
    const kdf: Kdf
    var tek: seq<byte>
    var tekTimestamp: u32
    var rpik: seq<byte>
    var aemk: seq<byte>
    var rpi: seq<byte>
    var rpiChangedAt: int  // clock seconds at the last successful RPI update

    ghost predicate Valid()
      reads this
    {
      && crypto.Valid() && IsKdf(kdf)
      && |tek| == TekLength && |rpik| == RpikLength && |aemk| == AemkLength && |rpi| == RpiLength
    }

    /** The RPIK and AEMK are the two HKDF derivations of the current TEK. */
    ghost predicate KeysDerivedFromTek()
      reads this
    {
      rpik == kdf.derive([], tek, InfoRpik, RpikLength) && aemk == kdf.derive([], tek, InfoAemk, AemkLength)
    }

    /** The module before gaens_init: every key and identifier zeroed. */
    constructor (crypto: CryptoContext, kdf: Kdf)
      requires crypto.Valid() && IsKdf(kdf)
      ensures Valid() && this.crypto == crypto && this.kdf == kdf
      ensures tek == Zeros(TekLength) && tekTimestamp == 0
      ensures rpik == Zeros(RpikLength) && aemk == Zeros(AemkLength)
      ensures rpi == Zeros(RpiLength) && rpiChangedAt == 0
    {
      this.crypto := crypto;
      this.kdf := kdf;
      tek := Zeros(TekLength);
      tekTimestamp := 0;
      rpik := Zeros(RpikLength);
      aemk := Zeros(AemkLength);
      rpi := Zeros(RpiLength);
      rpiChangedAt := 0;
    }

    /**
     * gaens_update_rpi: the RPI of the current interval under the current
     * RPIK replaces the stored one. A failed clock read or a failed
     * encryption leaves the state as it was; the keys never change.
     */
    method UpdateRpi(clock: ClockReading, setKeyOk: bool, ecbOk: bool) returns (rc: int)
      requires Valid()
      modifies this, crypto
      ensures Valid()
      ensures tek == old(tek) && tekTimestamp == old(tekTimestamp) && rpik == old(rpik) && aemk == old(aemk)
      ensures rc == 0 <==> clock.ClockOk? && setKeyOk && ecbOk
      ensures rc == 0 ==> rpi == RpiOf(crypto.aes, rpik, IntervalOf(clock.tvSec)) && rpiChangedAt == clock.tvSec
      ensures rc != 0 ==> rc == -1 && rpi == old(rpi) && rpiChangedAt == old(rpiChangedAt)
    {
      if clock.ClockFailed? {
        return -1;
      }
      var buf := new byte[RpiLength];
      rc := crypto.Rpi(rpik, buf, clock, 0, setKeyOk, ecbOk);
      if rc != 0 {
        return -1;
      }
      rpi := buf[..];
      rpiChangedAt := clock.tvSec;
    }

    /**
     * gaens_update_keys: a fresh TEK, stamped with the start of the current
     * rolling period, and both keys derived from it. The update is
     * all-or-nothing: unless the clock, the random source and both HKDF
     * calls succeed, nothing changes. The RPI is left for gaens_update_rpi.
     */
    method UpdateKeys(clock: ClockReading, random: seq<byte>, randomOk: bool, hkdfRpikOk: bool, hkdfAemkOk: bool)
      returns (rc: int)
      requires Valid() && |random| == TekLength
      modifies this
      ensures Valid()
      ensures rpi == old(rpi) && rpiChangedAt == old(rpiChangedAt)
      ensures rc == 0 <==> clock.ClockOk? && randomOk && hkdfRpikOk && hkdfAemkOk
      ensures rc == 0 ==> && tek == random
                          && tekTimestamp == TekTimestampOf(IntervalOf(clock.tvSec))
                          && TekValidAt(tekTimestamp, IntervalOf(clock.tvSec))
                          && !TekExpiredAt(tekTimestamp, IntervalOf(clock.tvSec))
                          && KeysDerivedFromTek()
      ensures rc != 0 ==> && rc == -1
                          && tek == old(tek) && tekTimestamp == old(tekTimestamp)
                          && rpik == old(rpik) && aemk == old(aemk)
    {
      if clock.ClockFailed? {
        return -1;
      }
      var t := Tek(TekLength, clock, random, randomOk);
      if t.rc != 0 {
        return -1;
      }
      var newTek := t.tek.value;
      var newRpik := Rpik(kdf, hkdfRpikOk, newTek, RpikLength);
      if newRpik.Err? {
        return -1;
      }
      var newAemk := Aemk(kdf, hkdfAemkOk, newTek, AemkLength);
      if newAemk.Err? {
        return -1;
      }
      ValidImpliesNotExpired(t.tekTimestamp, IntervalOf(clock.tvSec));
      tek, tekTimestamp, rpik, aemk := newTek, t.tekTimestamp, newRpik.value, newAemk.value;
      rc := 0;
    }

    /** gaens_get_rpi: a copy of the current RPI. */
    method GetRpi(out: array<byte>) returns (rc: int)
      requires Valid() && out.Length == RpiLength
      modifies out
      ensures rc == 0 && out[..] == rpi
    {
      forall i | 0 <= i < RpiLength {
        out[i] := rpi[i];
      }
      return 0;
    }

    /** gaens_get_rpi_decrypted: the current RPI decrypted under the current RPIK. */
    method GetRpiDecrypted(out: array<byte>, setKeyOk: bool, ecbOk: bool) returns (rc: int)
      requires Valid() && out.Length == RpiLength
      modifies crypto, out
      ensures Valid()
      ensures rc == 0 <==> setKeyOk && ecbOk
      ensures rc != 0 ==> rc == -1
      ensures rc == 0 ==> out[..] == crypto.aes.decrypt(rpik, rpi)
    {
      rc := crypto.RpiDecrypt(rpik, rpi, out, setKeyOk, ecbOk);
    }

    /** A fresh buffer holding the current RPI. */
    method CopyOfRpi() returns (counter: array<byte>)
      requires Valid()
      ensures fresh(counter) && counter[..] == rpi
    {
      counter := new byte[RpiLength];
      forall i | 0 <= i < RpiLength {
        counter[i] := rpi[i];
      }
    }

    /** gaens_get_tek: a copy of the current TEK and the interval it is valid from. */
    method GetTek(out: array<byte>) returns (rc: int, timestamp: u32)
      requires Valid() && out.Length == TekLength
      modifies out
      ensures rc == 0 && out[..] == tek && timestamp == tekTimestamp
    {
      forall i | 0 <= i < TekLength {
        out[i] := tek[i];
      }
      return 0, tekTimestamp;
    }

    /**
     * gaens_encrypt_metadata: AES-CTR of the metadata under the AEMK with the
     * current RPI as counter block. The library advances the counter it is
     * given, so it is given a copy and the stored RPI stays as it was.
     */
    method EncryptMetadata(metadata: seq<byte>, aem: array<byte>, setKeyOk: bool, ctrOk: bool) returns (rc: int)
      requires Valid() && |metadata| == AemLength && aem.Length == AemLength
      modifies crypto, aem
      ensures Valid()
      ensures rc == 0 <==> setKeyOk && ctrOk
      ensures rc != 0 ==> rc == -1
      ensures rc == 0 ==> aem[..] == AemOf(crypto.aes, aemk, rpi, metadata)
    {
      var counter := CopyOfRpi();
      rc := crypto.Aem(aemk, counter, metadata, aem, setKeyOk, ctrOk);
    }

    /** gaens_decrypt_metadata: the same transformation, which undoes EncryptMetadata under the same RPI. */
    method DecryptMetadata(aemIn: seq<byte>, out: array<byte>, setKeyOk: bool, ctrOk: bool) returns (rc: int)
      requires Valid() && |aemIn| == AemLength && out.Length == AemLength
      modifies crypto, out
      ensures Valid()
      ensures rc == 0 <==> setKeyOk && ctrOk
      ensures rc != 0 ==> rc == -1
      ensures rc == 0 ==> out[..] == AemOf(crypto.aes, aemk, rpi, aemIn)
      ensures rc == 0 ==> AemOf(crypto.aes, aemk, rpi, out[..]) == aemIn
    {
      var counter := CopyOfRpi();
      rc := crypto.AemDecrypt(aemIn, aemk, counter, out, setKeyOk, ctrOk);
      if rc == 0 {
        AemRoundTrip(crypto.aes, aemk, rpi, aemIn);
      }
    }

    /**
     * gaens_ble_addr_expired: negative when the clock cannot be read, 1 once
     * ten minutes or more have passed since the RPI last changed, else 0.
     */
    function BleAddrExpired(clock: ClockReading): (r: int)
      reads this
      ensures r == -1 || r == 0 || r == 1
      ensures r < 0 <==> clock.ClockFailed?
      ensures clock.ClockOk? ==> (r == 1 <==> clock.tvSec - rpiChangedAt >= AddressLifetimeSeconds)
    {
      match clock
      case ClockFailed => -1
      case ClockOk(now) => if now - rpiChangedAt >= AddressLifetimeSeconds then 1 else 0
    }

    /**
     * gaens_tek_expired: negative when the clock cannot be read, 1 once the
     * current interval lies past the TEK's rolling period, else 0.
     */
    function TekExpired(clock: ClockReading): (r: int)
      reads this
      ensures r == -1 || r == 0 || r == 1
      ensures r < 0 <==> clock.ClockFailed?
      ensures clock.ClockOk? ==> (r == 1 <==> IntervalOf(clock.tvSec) >= tekTimestamp + TekRollingPeriod)
    {
      match clock
      case ClockFailed => -1
      case ClockOk(now) => if TekExpiredAt(tekTimestamp, IntervalOf(now)) then 1 else 0
    }
  }

  /** A TEK whose validity window contains `n` is not expired at `n`. */
  lemma ValidImpliesNotExpired(ts: u32, n: u32)
    requires TekValidAt(ts, n)
    ensures !TekExpiredAt(ts, n)
  {
  }

  /**
   * Right after a successful key update, the TEK is not expired on the same
   * clock reading, and it expires within the next 144 intervals.
   */
  lemma FreshTekNotExpired(tekTimestamp: u32, tvSec: int)
    requires tekTimestamp == TekTimestampOf(IntervalOf(tvSec))
    ensures !TekExpiredAt(tekTimestamp, IntervalOf(tvSec))
    ensures forall n: u32 :: n >= IntervalOf(tvSec) + TekRollingPeriod ==> TekExpiredAt(tekTimestamp, n)
  {
  }

  /**
   * Expiry counts from the aligned start of the rolling period, not from the
   * moment the TEK was generated: a TEK generated in the last interval of a
   * period is expired in the very next interval, ten minutes later.
   */
  lemma {:induction false} LastIntervalTekExpiresNext(n: u32)
    requires n % TekRollingPeriod == TekRollingPeriod - 1 && n < 0xFFFF_FFFF
    ensures TekTimestampOf(n) == n - (TekRollingPeriod - 1)
    ensures !TekExpiredAt(TekTimestampOf(n), n) && TekExpiredAt(TekTimestampOf(n), n + 1)
  {
    assert n == (n / TekRollingPeriod) * TekRollingPeriod + (TekRollingPeriod - 1);
  }

  /** The instance at the epoch: generated at 143 * 600 s, expired at 144 * 600 s. */
  lemma TekGeneratedAtPeriodEndExpiresAfterTenMinutes()
    ensures TekTimestampOf(IntervalOf(143 * 600)) == 0
    ensures !TekExpiredAt(0, IntervalOf(143 * 600)) && TekExpiredAt(0, IntervalOf(144 * 600))
  {
    LastIntervalTekExpiresNext(143);
  }
}
