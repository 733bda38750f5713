/**
 * The on-target self test of src/gaens/gaens_test.c: two RPIs ten minutes
 * apart, then metadata encryption before and after an RPI change. Each
 * "(should be ...)" the test prints becomes a postcondition of the method
 * that runs that step, for any block cipher and key derivation and with the
 * clock set as the test sets it.
 */
module GaensTest {
  import opened Common
  import opened Primitives
  import opened Crypto
  import opened Gaens

  /** arrays_eq: 1 when the first `len` bytes agree, 0 at the first difference. */
  method ArraysEq(arr1: array<byte>, arr2: array<byte>, len: byte) returns (r: int)
    requires len <= arr1.Length && len <= arr2.Length
    ensures r == 0 || r == 1
    ensures r == 1 <==> arr1[..len] == arr2[..len]
  {
    var i := 0;
    while i < len
      invariant 0 <= i <= len
      invariant arr1[..i] == arr2[..i]
    {
      if arr1[i] != arr2[i] {
        assert arr1[..len][i] != arr2[..len][i];
        return 0;
      }
      assert arr1[..i + 1] == arr1[..i] + [arr1[i]];
      assert arr2[..i + 1] == arr2[..i] + [arr2[i]];
      i := i + 1;
    }
    return 1;
  }

  const StartTime := 1615051437

  /** The two clock readings of the RPI test fall into consecutive intervals. */
  lemma TestIntervals()
    ensures IntervalOf(StartTime) == 2691752
    ensures IntervalOf(StartTime + 600) == 2691753
  {
  }

  /** gaens_update_rpi at clock `t`, then gaens_get_rpi into a zeroed buffer. */
  method UpdateAndGetRpi(g: Gaens, t: int) returns (buf: array<byte>)
    requires g.Valid()
    modifies g, g.crypto
    ensures g.Valid() && fresh(buf)
    ensures g.rpik == old(g.rpik) && g.aemk == old(g.aemk)
    ensures buf[..] == g.rpi == RpiOf(g.crypto.aes, g.rpik, IntervalOf(t)) && g.rpiChangedAt == t
  {
    var rc := g.UpdateRpi(ClockOk(t), true, true);
    buf := new byte[RpiLength](_ => 0);
    rc := g.GetRpi(buf);
  }

  /** `correct_dec_rpi`: "EN-RPI", zeros, and the interval number copied into bytes 12 to 15. */
  method CorrectDecryptedRpi(clock: ClockReading) returns (buf: array<byte>)
    requires clock.ClockOk?
    ensures fresh(buf) && buf[..] == PaddedData(IntervalOf(clock.tvSec))
  {
    buf := new byte[16](i => if i < 6 then EnRpi[i] else 0);
    var currentEnIntervalNumber := EnIntervalNumber(clock, 0).1;
    var le := Le32(currentEnIntervalNumber);
    buf[12], buf[13], buf[14], buf[15] := le[0], le[1], le[2], le[3];
    assert buf[..] == PaddedData(IntervalOf(clock.tvSec));
  }

  /**
   * test_rpi: the address is fresh right after an update and expired ten
   * minutes later, the RPI of the next interval differs from the first, and
   * the current RPI decrypts to "EN-RPI", six zeros and the interval number.
   */
  method TestRpi(g: Gaens) returns (shouldUpdateFirst: int, shouldUpdateSecond: int, rpisEqual: int, decryptedEqual: int)
    requires g.Valid()
    modifies g, g.crypto
    ensures g.Valid()
    ensures shouldUpdateFirst == 0 && shouldUpdateSecond == 1
    ensures rpisEqual == 0 && decryptedEqual == 1
    ensures g.rpiChangedAt == StartTime + 600
  {
    var rpi1 := UpdateAndGetRpi(g, StartTime);
    shouldUpdateFirst := g.BleAddrExpired(ClockOk(StartTime));

    var endTime := StartTime + 600;
    shouldUpdateSecond := g.BleAddrExpired(ClockOk(endTime));

    var rpi2 := UpdateAndGetRpi(g, endTime);
    TestIntervals();
    RpiDistinctAcrossIntervals(g.crypto.aes, g.rpik, IntervalOf(StartTime), IntervalOf(endTime));
    assert rpi1[..RpiLength] == rpi1[..] && rpi2[..RpiLength] == rpi2[..];
    rpisEqual := ArraysEq(rpi1, rpi2, RpiLength);

    var correctDecRpi := CorrectDecryptedRpi(ClockOk(endTime));
    var actualDecRpi := new byte[RpiLength](_ => 0);
    var rc := g.GetRpiDecrypted(actualDecRpi, true, true);
    RpiRoundTrip(g.crypto.aes, g.rpik, IntervalOf(endTime));
    assert correctDecRpi[..RpiLength] == correctDecRpi[..] && actualDecRpi[..RpiLength] == actualDecRpi[..];
    decryptedEqual := ArraysEq(correctDecRpi, actualDecRpi, RpiLength);
  }

  /** `dummy_metadata`: the four bytes of "HELP". */
  method DummyMetadata() returns (buf: array<byte>)
    ensures fresh(buf) && buf[..] == Ascii("HELP")
  {
    buf := new byte[AemLength];
    buf[0], buf[1], buf[2], buf[3] := 'H' as int, 'E' as int, 'L' as int, 'P' as int;
  }

  /** gaens_encrypt_metadata into a new buffer; the module state is left as it was. */
  method EncryptInto(g: Gaens, metadata: seq<byte>) returns (aem: array<byte>)
    requires g.Valid() && |metadata| == AemLength
    modifies g.crypto
    ensures g.Valid() && fresh(aem)
    ensures aem[..] == AemOf(g.crypto.aes, g.aemk, g.rpi, metadata)
  {
    aem := new byte[AemLength];
    var rc := g.EncryptMetadata(metadata, aem, true, true);
  }

  /**
   * test_aem, with the clock reading `now` when it starts: the same metadata
   * under the same RPI encrypts to the same AEM, and after the RPI changes
   * the AEM decrypts back to the metadata. Whether the third AEM differs
   * from the first is whether CTR under the two RPIs differs on these bytes.
   */
  method TestAem(g: Gaens, now: int) returns (sameRpiEqual: int, newRpiEqual: int, decryptedEqual: int)
    requires g.Valid()
    modifies g, g.crypto
    ensures g.Valid()
    ensures sameRpiEqual == 1 && decryptedEqual == 1
    ensures newRpiEqual == 0 || newRpiEqual == 1
    ensures newRpiEqual == 1 <==>
      AemOf(g.crypto.aes, g.aemk, old(g.rpi), Ascii("HELP")) == AemOf(g.crypto.aes, g.aemk, g.rpi, Ascii("HELP"))
    ensures g.rpi == RpiOf(g.crypto.aes, g.rpik, IntervalOf(now + 600))
  {
    var dummyMetadata := DummyMetadata();
    var outputAem1 := EncryptInto(g, dummyMetadata[..]);
    var outputAem2 := EncryptInto(g, dummyMetadata[..]);
    assert outputAem1[..AemLength] == outputAem1[..] && outputAem2[..AemLength] == outputAem2[..];
    sameRpiEqual := ArraysEq(outputAem1, outputAem2, AemLength);

    var rc := g.UpdateRpi(ClockOk(now + 600), true, true);

    var outputAem3 := EncryptInto(g, dummyMetadata[..]);
    assert outputAem3[..AemLength] == outputAem3[..];
    newRpiEqual := ArraysEq(outputAem1, outputAem3, AemLength);

    var decryptedAem := new byte[AemLength];
    rc := g.DecryptMetadata(outputAem3[..], decryptedAem, true, true);
    AemRoundTrip(g.crypto.aes, g.aemk, g.rpi, dummyMetadata[..]);
    assert dummyMetadata[..AemLength] == dummyMetadata[..] && decryptedAem[..AemLength] == decryptedAem[..];
    decryptedEqual := ArraysEq(dummyMetadata, decryptedAem, AemLength);
  }

  /**
   * gaens_test_run_all: both tests on one module state, the AEM test
   * starting from the clock the RPI test left behind.
   */
  method RunAll(aes: BlockCipher, kdf: Kdf)
    returns (shouldUpdateFirst: int, shouldUpdateSecond: int, rpisEqual: int, rpiDecryptedEqual: int,
             sameRpiEqual: int, aemDecryptedEqual: int)
    requires IsBlockCipher(aes) && IsKdf(kdf)
    ensures shouldUpdateFirst == 0 && shouldUpdateSecond == 1 && rpisEqual == 0 && rpiDecryptedEqual == 1
    ensures sameRpiEqual == 1 && aemDecryptedEqual == 1
  {
    var crypto := new CryptoContext(aes);
    var g := new Gaens(crypto, kdf);
    shouldUpdateFirst, shouldUpdateSecond, rpisEqual, rpiDecryptedEqual := TestRpi(g);
    var newRpiEqual;
    sameRpiEqual, newRpiEqual, aemDecryptedEqual := TestAem(g, StartTime + 600);
  }
}
