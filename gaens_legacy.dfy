/**
 * The older key-schedule functions of src/gaens/gaens.c, kept beside
 * crypto.c: a 16-bit TEK and RPIK, an interval number computed from
 * `time(NULL)`, and an RPI function that builds the padded block but never
 * encrypts it.
 */
module GaensLegacy {
  import opened Common
  import opened Primitives
  import Crypto

  const TekRollingPeriod := 144

  /**
   * gaens_en_interval_number: `(uint32_t)epoch_timestamp / 600`. The cast
   * binds tighter than the division, so the seconds are reduced modulo 2^32
   * first (crypto.c divides first). `time` cannot fail here: its error value
   * (time_t)-1 is simply converted.
   */
  function EnIntervalNumber(epoch: int): (n: u32)
    ensures n <= 0xFFFF_FFFF / 600
    ensures 0 <= epoch < 0x1_0000_0000 ==> 600 * n <= epoch < 600 * n + 600
  {
    ToU32(epoch) / 600
  }

  /**
   * The two interval functions agree while the seconds fit in 32 bits and
   * part company beyond: at 2^32 seconds the legacy counter restarts from 0.
   */
  lemma IntervalVariantsAgreeOnlyWithin32Bits(epoch: int)
    ensures 0 <= epoch < 0x1_0000_0000 ==> EnIntervalNumber(epoch) == Crypto.IntervalOf(epoch)
    ensures EnIntervalNumber(0x1_0000_0000) == 0
    ensures Crypto.IntervalOf(0x1_0000_0000) == 0x1_0000_0000 / 600
    ensures EnIntervalNumber(-1) == 0xFFFF_FFFF / 600 && Crypto.IntervalOf(-1) == 0
  {
  }

  /** A C pointer to a `uint32_t`: null, or a valid object. */
  datatype Pointer = Null | Valid

  /** What a call to gaens_tek does: it faults, or it returns a code with its outputs. */
  datatype TekOutcome = Fault | Returned(rc: int, tek: Option<u16>, tekTimestamp: u32)

  /** `*buf = ...` inside gaens_en_interval_number: storing through null faults. */
  function StoreInterval(buf: Pointer, epoch: int): (r: Option<u32>)
    ensures r.Some? <==> buf.Valid?
    ensures r.Some? ==> r.value == EnIntervalNumber(epoch)
  {
    if buf.Null? then None else Some(EnIntervalNumber(epoch))
  }

  /**
   * gaens_tek as written: `uint32_t *en_interval_number = 0` is handed to
   * gaens_en_interval_number, which stores through it, and is then read.
   */
  function TekAsWritten(epoch: int, random: seq<byte>, randomOk: bool): (r: TekOutcome)
    requires |random| == 2
    ensures r == Fault
  {
    TekWith(Null, epoch, random, randomOk)
  }

  /** The body of gaens_tek, given the pointer it hands to gaens_en_interval_number. */
  function TekWith(enIntervalNumber: Pointer, epoch: int, random: seq<byte>, randomOk: bool): (r: TekOutcome)
    requires |random| == 2
    ensures r.Fault? <==> enIntervalNumber.Null?
    ensures r.Returned? ==> r == TekFrom(EnIntervalNumber(epoch), random, randomOk)
  {
    match StoreInterval(enIntervalNumber, epoch)
    case None => Fault
    case Some(n) => TekFrom(n, random, randomOk)
  }

  /** On every input the as-written gaens_tek faults where the corrected one returns. */
  lemma TekAsWrittenFaults(epoch: int, random: seq<byte>, randomOk: bool)
    requires |random| == 2
    ensures TekAsWritten(epoch, random, randomOk) != Tek(epoch, random, randomOk)
  {
  }

  /**
   * The rest of gaens_tek once an interval number is at hand: the timestamp
   * is the interval rounded down to a multiple of 144, then `sizeof(*tek)`
   * = 2 random bytes are drawn into the 16-bit TEK (native byte order).
   */
  function TekFrom(n: u32, random: seq<byte>, randomOk: bool): (r: TekOutcome)
    requires |random| == 2
    ensures r.Returned?
    ensures r.tekTimestamp % TekRollingPeriod == 0 && r.tekTimestamp <= n < r.tekTimestamp + TekRollingPeriod
    ensures r.rc == 0 <==> randomOk
    ensures !randomOk ==> r.rc == -1 && r.tek == None
    ensures randomOk ==> r.tek == Some(random[0] as int + 0x100 * random[1] as int)
  {
    var ts := (n / TekRollingPeriod) * TekRollingPeriod;
    if randomOk then Returned(0, Some(random[0] as int + 0x100 * random[1] as int), ts) else Returned(-1, None, ts)
  }

  /** gaens_tek as evidently intended: the interval number in a local variable. */
  function Tek(epoch: int, random: seq<byte>, randomOk: bool): (r: TekOutcome)
    requires |random| == 2
    // it returns, its timestamp is the aligned start of the current rolling period,
    // and it succeeds exactly when the random draw does
    ensures r.Returned?
    ensures r.tekTimestamp == Crypto.TekTimestampOf(EnIntervalNumber(epoch))
    ensures r.rc == 0 <==> randomOk
  {
    var n := EnIntervalNumber(epoch);
    assert TekFrom(n, random, randomOk).tekTimestamp == (n / TekRollingPeriod) * TekRollingPeriod;
    TekWith(Valid, epoch, random, randomOk)
  }

  /**
   * While the seconds since the epoch fit in 32 bits, the
   * corrected gaens_tek and crypto.c's TEK generation agree on the timestamp
   * and on whether the draw succeeded.
   */
  lemma TekAgreesWithCrypto(epoch: int, random: seq<byte>, randomOk: bool, tekBytes: seq<byte>)
    requires |random| == 2 && |tekBytes| == Crypto.TekLength
    requires 0 <= epoch < 0x1_0000_0000
    ensures Tek(epoch, random, randomOk).tekTimestamp
         == Crypto.Tek(Crypto.TekLength, Crypto.ClockOk(epoch), tekBytes, randomOk).tekTimestamp
    ensures Tek(epoch, random, randomOk).rc == Crypto.Tek(Crypto.TekLength, Crypto.ClockOk(epoch), tekBytes, randomOk).rc
  {
    IntervalVariantsAgreeOnlyWithin32Bits(epoch);
  }

  /**
   * gaens_rpik: HKDF-SHA256 with empty salt and info "EN-RPIK" over the two
   * bytes of the 16-bit TEK, into a two-byte RPIK (native byte order).
   */
  function Rpik(kdf: Kdf, hkdfOk: bool, tek: u16): (r: Result<u16>)
    requires IsKdf(kdf)
    ensures r.Ok? <==> hkdfOk
    ensures r.Err? ==> r.code == -1
    ensures r.Ok? ==> var okm := kdf.derive([], [tek % 0x100, tek / 0x100], Crypto.InfoRpik, 2);
                      r.value == okm[0] as int + 0x100 * okm[1] as int
  {
    var okm := kdf.derive([], [tek % 0x100, tek / 0x100], Crypto.InfoRpik, 2);
    if hkdfOk then Ok(okm[0] as int + 0x100 * okm[1] as int) else Err(-1)
  }

  /** The local `padded_data` of gaens_rpi: "EN-RPI", six zeros, the interval number little-endian. */
  function RpiBlock(epoch: int): (block: seq<byte>)
    ensures block == Crypto.PaddedData(EnIntervalNumber(epoch))
  {
    Ascii("EN-RPI") + [0, 0, 0, 0, 0, 0] + Le32(EnIntervalNumber(epoch))
  }

  /**
   * gaens_rpi builds RpiBlock(epoch) and discards it: no encryption takes
   * place, nothing is written out, and the result is 0 for every key and time.
   */
  function Rpi(rpik: u16, epoch: int): (rc: int)
    ensures rc == 0
  {
    var paddedData := RpiBlock(epoch);
    0
  }
}
