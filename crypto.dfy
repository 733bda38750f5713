/**
 * The Exposure Notification key schedule of src/gaens/crypto.c: the EN
 * interval number, the Temporary Exposure Key (TEK) and its validity
 * timestamp, the HKDF derivations of the Rolling Proximity Identifier Key
 * (RPIK) and the Associated Encrypted Metadata Key (AEMK), the Rolling
 * Proximity Identifier (RPI, AES-ECB of a padded block) and the Associated
 * Encrypted Metadata (AEM, AES-CTR with the RPI as counter block).
 *
 * The clock, the random source and the outcome of every library call are
 * parameters; the two module-level AES contexts are the fields of
 * CryptoContext.
 */
module Crypto {
  import opened Common
  import opened Primitives

  const TekRollingPeriod := 144  // ten-minute intervals: 24 hours
  const TekLength := 16
  const RpikLength := 16
  const RpiLength := 16
  const AemkLength := 16
  const IntervalSeconds := 600

  /** What `clock_gettime(CLOCK_REALTIME, ...)` reports: seconds, or a failure. */
  datatype ClockReading = ClockOk(tvSec: int) | ClockFailed

  /** `(uint32_t)(tv_sec / 600)` with C's truncating division and unsigned conversion. */
  function IntervalOf(tvSec: int): (n: u32)
    // within the range of a 32-bit interval counter, n is floor(seconds / 600)
    ensures 0 <= tvSec < IntervalSeconds * 0x1_0000_0000 ==>
              IntervalSeconds * n <= tvSec < IntervalSeconds * n + IntervalSeconds
    // the last ten minutes before the epoch truncate to interval 0, not -1
    ensures -IntervalSeconds < tvSec < 0 ==> n == 0
  {
    ToU32(TruncDiv(tvSec, IntervalSeconds))
  }

  /** Ten minutes later the interval number is one higher (modulo 2^32). */
  lemma {:induction false} IntervalAdvancesEveryTenMinutes(tvSec: int)
    requires tvSec >= 0
    ensures IntervalOf(tvSec + IntervalSeconds) == ToU32(IntervalOf(tvSec) + 1)
  {
    var q := tvSec / IntervalSeconds;
    assert (tvSec + IntervalSeconds) / IntervalSeconds == q + 1;
    ModSucc(q);
  }

  lemma ModSucc(q: nat)
    ensures (q + 1) % 0x1_0000_0000 == (q % 0x1_0000_0000 + 1) % 0x1_0000_0000
  {
    var k, r := q / 0x1_0000_0000, q % 0x1_0000_0000;
    assert q + 1 == k * 0x1_0000_0000 + (r + 1);
    if r + 1 < 0x1_0000_0000 {
      assert (q + 1) / 0x1_0000_0000 == k;
    } else {
      assert q + 1 == (k + 1) * 0x1_0000_0000;
    }
  }

  /**
   * crypto_en_interval_number: return code and the value left in `*output`,
   * which a failed clock read does not touch.
   */
  function EnIntervalNumber(clock: ClockReading, output: u32): (r: (int, u32))
    ensures clock.ClockFailed? ==> r == (-1, output)
    ensures clock.ClockOk? ==> r.0 == 0
    ensures clock.ClockOk? && 0 <= clock.tvSec < IntervalSeconds * 0x1_0000_0000 ==>
              IntervalSeconds * r.1 <= clock.tvSec < IntervalSeconds * r.1 + IntervalSeconds
  {
    match clock
    case ClockFailed => (-1, output)
    case ClockOk(tvSec) => (0, IntervalOf(tvSec))
  }

  /** The interval number rounded down to a multiple of the rolling period. */
  function TekTimestampOf(n: u32): (ts: u32)
    ensures ts % TekRollingPeriod == 0
    ensures ts <= n < ts + TekRollingPeriod
  {
    (n / TekRollingPeriod) * TekRollingPeriod
  }

  /** A TEK stamped `tekTimestamp` is valid until one full rolling period has elapsed. */
  predicate TekValidAt(tekTimestamp: u32, n: u32)
  {
    tekTimestamp <= n < tekTimestamp + TekRollingPeriod
  }

  /**
   * A TEK made in interval n is valid in n, and its validity window is
   * exactly the aligned rolling period containing n: every interval in the
   * window would have produced the same timestamp.
   */
  lemma TekWindowIsAlignedPeriod(n: u32, m: u32)
    ensures TekValidAt(TekTimestampOf(n), n)
    ensures TekValidAt(TekTimestampOf(n), m) <==> TekTimestampOf(m) == TekTimestampOf(n)
  {
    var ts := TekTimestampOf(n);
    if TekValidAt(ts, m) {
      assert m / TekRollingPeriod == ts / TekRollingPeriod;
    }
  }

  /** What crypto_tek leaves behind: its return code, the TEK buffer and `*tek_timestamp`. */
  datatype TekOutput = TekOutput(rc: int, tek: Option<seq<byte>>, tekTimestamp: u32)

  /**
   * crypto_tek: the timestamp is written before the random draw, from an
   * interval number that stays 0 when the clock read fails (the error is
   * ignored); a failed draw returns -1 with the buffer contents unspecified.
   */
  function Tek(tekLen: byte, clock: ClockReading, random: seq<byte>, randomOk: bool): (r: TekOutput)
    requires |random| == tekLen
    ensures clock.ClockOk? ==> TekValidAt(r.tekTimestamp, IntervalOf(clock.tvSec))
                               && r.tekTimestamp % TekRollingPeriod == 0
    ensures clock.ClockFailed? ==> r.tekTimestamp == 0
    ensures r.rc == 0 <==> randomOk
    ensures randomOk ==> r.tek == Some(random)
    ensures !randomOk ==> r.rc == -1 && r.tek == None
  {
    var n := EnIntervalNumber(clock, 0).1;
    var ts := TekTimestampOf(n);
    if randomOk then TekOutput(0, Some(random), ts) else TekOutput(-1, None, ts)
  }

  /** The HKDF info strings, 7 ASCII bytes each: strlen() leaves out the terminator. */
  const InfoRpik: seq<byte> := Ascii("EN-RPIK")
  const InfoAemk: seq<byte> := Ascii("EN-AEMK")

  lemma InfoStrings()
    ensures |InfoRpik| == 7 && |InfoAemk| == 7
    ensures InfoRpik[..3] == InfoAemk[..3] && InfoRpik != InfoAemk
    ensures forall i :: 0 <= i < 7 ==> InfoRpik[i] != 0 && InfoAemk[i] != 0
  {
    assert InfoRpik[3] != InfoAemk[3];
  }

  /**
   * _hkdf_generate_key: HKDF-SHA256 with an empty salt, refused before any
   * derivation when the input and output lengths differ.
   */
  function HkdfGenerateKey(kdf: Kdf, hkdfOk: bool, inKey: seq<byte>, info: seq<byte>, outKeyLen: byte): (r: Result<seq<byte>>)
    ensures r.Ok? <==> |inKey| == outKeyLen && hkdfOk
    ensures r.Err? ==> r.code == -1
    ensures r.Ok? ==> r.value == kdf.derive([], inKey, info, outKeyLen)
    ensures IsKdf(kdf) && r.Ok? ==> |r.value| == |inKey|
  {
    if |inKey| != outKeyLen then Err(-1)
    else if !hkdfOk then Err(-1)
    else Ok(kdf.derive([], inKey, info, outKeyLen))
  }

  /** crypto_rpik: HKDF over the TEK with info "EN-RPIK". */
  function Rpik(kdf: Kdf, hkdfOk: bool, tek: seq<byte>, rpikLen: byte): (r: Result<seq<byte>>)
    ensures r.Ok? <==> |tek| == rpikLen && hkdfOk
    ensures r.Err? ==> r.code == -1
    ensures r.Ok? ==> r.value == kdf.derive([], tek, InfoRpik, rpikLen)
  {
    match HkdfGenerateKey(kdf, hkdfOk, tek, InfoRpik, rpikLen)
    case Ok(key) => Ok(key)
    case Err(_) => Err(-1)
  }

  /** crypto_aemk: HKDF over the TEK with info "EN-AEMK". */
  function Aemk(kdf: Kdf, hkdfOk: bool, tek: seq<byte>, aemkLen: byte): (r: Result<seq<byte>>)
    ensures r.Ok? <==> |tek| == aemkLen && hkdfOk
    ensures r.Err? ==> r.code == -1
    ensures r.Ok? ==> r.value == kdf.derive([], tek, InfoAemk, aemkLen)
  {
    match HkdfGenerateKey(kdf, hkdfOk, tek, InfoAemk, aemkLen)
    case Ok(key) => Ok(key)
    case Err(_) => Err(-1)
  }

  const EnRpi: seq<byte> := Ascii("EN-RPI")

  /** The RPI plaintext: "EN-RPI", six zero bytes, the interval number in native (little-endian) order. */
  function PaddedData(n: u32): (block: seq<byte>)
    ensures |block| == BlockLength
  {
    EnRpi + Zeros(6) + Le32(n)
  }

  /** The padded block has the layout of the key schedule and gives back its interval number. */
  lemma PaddedDataLayout(n: u32)
    ensures PaddedData(n)[..6] == [0x45, 0x4E, 0x2D, 0x52, 0x50, 0x49]
    ensures forall i :: 6 <= i < 12 ==> PaddedData(n)[i] == 0
    ensures FromLe32(PaddedData(n)[12..]) == n
  {
    assert PaddedData(n)[12..] == Le32(n);
    Le32RoundTrip(n);
  }

  lemma PaddedDataInjective(n1: u32, n2: u32)
    requires PaddedData(n1) == PaddedData(n2)
    ensures n1 == n2
  {
    PaddedDataLayout(n1);
    PaddedDataLayout(n2);
  }

  /** The RPI of interval n under `rpik`. */
  function RpiOf(aes: BlockCipher, rpik: seq<byte>, n: u32): (rpi: seq<byte>)
    // one block, and decrypting it with its RPIK yields exactly the padded block it was made from
    ensures IsBlockCipher(aes) && |rpik| == RpikLength ==>
              |rpi| == RpiLength && aes.decrypt(rpik, rpi) == PaddedData(n)
  {
    aes.encrypt(rpik, PaddedData(n))
  }

  /** The interval number can be read back from the last four bytes of a decrypted RPI. */
  lemma RpiRoundTrip(aes: BlockCipher, rpik: seq<byte>, n: u32)
    requires IsBlockCipher(aes) && |rpik| == RpikLength
    ensures FromLe32(aes.decrypt(rpik, RpiOf(aes, rpik, n))[12..]) == n
  {
    PaddedDataLayout(n);
  }

  /** Under one RPIK, distinct intervals give distinct RPIs. */
  lemma RpiDistinctAcrossIntervals(aes: BlockCipher, rpik: seq<byte>, n1: u32, n2: u32)
    requires IsBlockCipher(aes) && |rpik| == RpikLength
    requires n1 != n2
    ensures RpiOf(aes, rpik, n1) != RpiOf(aes, rpik, n2)
  {
    if RpiOf(aes, rpik, n1) == RpiOf(aes, rpik, n2) {
      EncryptInjective(aes, rpik, PaddedData(n1), PaddedData(n2));
      PaddedDataInjective(n1, n2);
    }
  }

  /** The AEM of `metadata`: AES-CTR under the AEMK with the RPI as initial counter block. */
  function AemOf(aes: BlockCipher, aemk: seq<byte>, rpi: seq<byte>, metadata: seq<byte>): (aem: seq<byte>)
    ensures |aem| == |metadata|
  {
    CtrCrypt(aes, aemk, rpi, metadata)
  }

  /** Decrypting with the same key and the same original RPI returns the metadata. */
  lemma AemRoundTrip(aes: BlockCipher, aemk: seq<byte>, rpi: seq<byte>, metadata: seq<byte>)
    ensures AemOf(aes, aemk, rpi, AemOf(aes, aemk, rpi, metadata)) == metadata
  {
    CtrRoundTrip(aes, aemk, rpi, metadata);
  }

  /** The key loaded in an mbedtls AES context, by direction. */
  datatype KeySchedule = Cleared | EncryptionKey(key: seq<byte>) | DecryptionKey(key: seq<byte>)

  /** The module-level AES contexts `rpi_aes_ctx` and `aem_aes_ctx` of crypto.c. */
  class CryptoContext {
    const aes: BlockCipher
    var rpiCtx: KeySchedule
    var aemCtx: KeySchedule

    ghost predicate Valid()
    {
      IsBlockCipher(aes)
    }

    /** crypto_init: both contexts are initialised (no key loaded). */
    constructor (aes: BlockCipher)
      requires IsBlockCipher(aes)
      ensures Valid() && this.aes == aes
      ensures rpiCtx == Cleared && aemCtx == Cleared
    {
      this.aes := aes;
      rpiCtx := Cleared;
      aemCtx := Cleared;
    }

    /**
     * crypto_rpi. The interval number comes from the clock; when the read
     * fails the error is ignored and `en_in_j` keeps whatever it held
     * (`stale`). The RPI context is re-keyed for encryption.
     */
    method Rpi(rpik: seq<byte>, rpi: array<byte>, clock: ClockReading, stale: u32, setKeyOk: bool, ecbOk: bool)
      returns (rc: int)
      requires Valid() && |rpik| == RpikLength && rpi.Length == RpiLength
      modifies this, rpi
      ensures Valid() && aemCtx == old(aemCtx)
      ensures rc == 0 <==> setKeyOk && ecbOk
      ensures rc != 0 ==> rc == -1
      ensures setKeyOk ==> rpiCtx == EncryptionKey(rpik)
      ensures rc == 0 ==> rpi[..] == RpiOf(aes, rpik, if clock.ClockOk? then IntervalOf(clock.tvSec) else stale)
    {
      var paddedData := new byte[16](i => if i < 6 then EnRpi[i] else 0);
      var enInJ := EnIntervalNumber(clock, stale).1;
      var le := Le32(enInJ);
      paddedData[12], paddedData[13], paddedData[14], paddedData[15] := le[0], le[1], le[2], le[3];
      assert paddedData[..] == PaddedData(enInJ);

      if !setKeyOk {
        return -1;
      }
      rpiCtx := EncryptionKey(rpik);

      if !ecbOk {
        return -1;
      }
      var out := aes.encrypt(rpiCtx.key, paddedData[..]);
      forall i | 0 <= i < RpiLength {
        rpi[i] := out[i];
      }
      return 0;
    }

    /** crypto_rpi_decrypt: the RPI context is re-keyed for decryption and the block decrypted. */
    method RpiDecrypt(rpik: seq<byte>, rpi: seq<byte>, decRpi: array<byte>, setKeyOk: bool, ecbOk: bool)
      returns (rc: int)
      requires Valid() && |rpik| == RpikLength && |rpi| == RpiLength && decRpi.Length == RpiLength
      modifies this, decRpi
      ensures Valid() && aemCtx == old(aemCtx)
      ensures rc == 0 <==> setKeyOk && ecbOk
      ensures rc != 0 ==> rc == -1
      ensures setKeyOk ==> rpiCtx == DecryptionKey(rpik)
      ensures rc == 0 ==> decRpi[..] == aes.decrypt(rpik, rpi)
    {
      if !setKeyOk {
        return -1;
      }
      rpiCtx := DecryptionKey(rpik);

      if !ecbOk {
        return -1;
      }
      var out := aes.decrypt(rpiCtx.key, rpi);
      forall i | 0 <= i < RpiLength {
        decRpi[i] := out[i];
      }
      return 0;
    }

    /**
     * crypto_aem: AES-CTR under an encryption key schedule with the stream
     * offset at 0 and `rpi` as the counter block, which the library
     * advances in place: callers must pass a copy of the RPI.
     */
    method Aem(aemk: seq<byte>, rpi: array<byte>, metadata: seq<byte>, aem: array<byte>, setKeyOk: bool, ctrOk: bool)
      returns (rc: int)
      requires Valid() && |aemk| == AemkLength && rpi.Length == RpiLength
      requires |metadata| < 0x100 && aem.Length == |metadata| && aem != rpi
      modifies this, rpi, aem
      ensures Valid() && rpiCtx == old(rpiCtx)
      ensures rc == 0 <==> setKeyOk && ctrOk
      ensures rc != 0 ==> rc == -1
      ensures setKeyOk ==> aemCtx == EncryptionKey(aemk)
      ensures rc == 0 ==> aem[..] == AemOf(aes, aemk, old(rpi[..]), metadata)
    {
      if !setKeyOk {
        return -1;
      }
      aemCtx := EncryptionKey(aemk);

      if !ctrOk {
        return -1;
      }
      CtrInPlace(aemCtx.key, rpi, metadata, aem);
      return 0;
    }

    /**
     * crypto_aem_decrypt: the same CTR transformation, keyed with an
     * encryption key schedule as CTR mode requires.
     */
    method AemDecrypt(aem: seq<byte>, aemk: seq<byte>, rpi: array<byte>, aemDec: array<byte>, setKeyOk: bool, ctrOk: bool)
      returns (rc: int)
      requires Valid() && |aemk| == AemkLength && rpi.Length == RpiLength
      requires |aem| < 0x100 && aemDec.Length == |aem| && aemDec != rpi
      modifies this, rpi, aemDec
      ensures Valid() && rpiCtx == old(rpiCtx)
      ensures rc == 0 <==> setKeyOk && ctrOk
      ensures rc != 0 ==> rc == -1
      ensures setKeyOk ==> aemCtx == EncryptionKey(aemk)
      ensures rc == 0 ==> aemDec[..] == AemOf(aes, aemk, old(rpi[..]), aem)
    {
      if !setKeyOk {
        return -1;
      }
      aemCtx := EncryptionKey(aemk);

      if !ctrOk {
        return -1;
      }
      CtrInPlace(aemCtx.key, rpi, aem, aemDec);
      return 0;
    }

    /** mbedtls_aes_crypt_ctr from stream offset 0: writes the output, advances the counter block. */
    method CtrInPlace(key: seq<byte>, counter: array<byte>, input: seq<byte>, output: array<byte>)
      requires output.Length == |input| && output != counter
      modifies counter, output
      ensures output[..] == CtrCrypt(aes, key, old(counter[..]), input)
      ensures counter[..] == Advance(old(counter[..]), BlocksFor(|input|))
    {
      var out := CtrCrypt(aes, key, counter[..], input);
      var next := Advance(counter[..], BlocksFor(|input|));
      forall i | 0 <= i < output.Length {
        output[i] := out[i];
      }
      forall i | 0 <= i < counter.Length {
        counter[i] := next[i];
      }
    }
  }
}
