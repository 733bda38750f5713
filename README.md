# Contracing firmware core in Dafny

This is a verified model of the sequential core of the Contracing wearable firmware.

- **Exposure Notification key schedule** (`src/gaens/crypto.c`, `crypto.h`, and the older `src/gaens/gaens.c`).
  - The EN interval number and the Temporary Exposure Key (TEK) with its validity timestamp.
  - The HKDF derivations of the Rolling Proximity Identifier Key (RPIK) and the Associated Encrypted Metadata Key (AEMK).
  - The Rolling Proximity Identifier (RPI), which is AES-ECB of a padded block.
  - The Associated Encrypted Metadata (AEM), which is AES-CTR with the RPI as counter block.
- **GAENS module state** (`src/gaens/gaens.h`): the current keys and RPI, the update operations, the getters, and the two expiry checks.
- **On-target self test** (`src/gaens/gaens_test.c`): it is restated as verified methods whose postconditions are the test's "(should be ...)" values.
- **ENS log writer** (`src/records/storage.c`, `storage.h`):
  - fixed-layout ENS records, per Table 4.2 of the WENS specification;
  - a running flash offset;
  - a 24-bit wrapping sequence number;
  - erase-all.
- **GATT-side state updates**:
  - the WENS characteristic write callbacks and the notify/indicate state assignments (`src/ble/services/wens/wens.c`);
  - the battery-level service (`src/ble/services/bs/bas.c`).

AES-128 and HKDF-SHA256 are parameters. `Primitives.BlockCipher` must satisfy `IsBlockCipher`: on 16-byte keys and blocks, encrypting and decrypting invert each other. `Primitives.Kdf` must satisfy `IsKdf`: the output has the requested length.

AES-CTR follows NIST SP 800-38A, section 6.5. The data is XORed with E(c) ++ E(c+1) ++ ….

Each result below holds for every block cipher and every key derivation meeting these predicates. The following are all parameters:
- the clock (`Crypto.ClockReading`);
- the random bytes;
- the outcome of every library or driver call.

The modules follow the program's parts. `Crypto`, `Gaens`, `GaensLegacy`, `GaensTest`, `Storage`, `Wens` and `Bas` each model one C source file, with its header (`crypto.h`, `storage.h`, ...) merged in. `Common` and `Primitives` correspond to no source file: they hold the helpers those modules share. The module-level state of C becomes a class:
- `Crypto.CryptoContext` holds the AES contexts;
- `Gaens.Gaens` holds the GAENS state;
- `Storage.Storage` holds the sequence number, the offset and the flash;
- `Wens.WensService` holds the characteristics;
- `Bas.BatteryService` holds the battery level.

`GaensTest` holds the test scenario. `Common` holds the fixed-width integers and byte codecs. `Primitives` holds the AES and HKDF parameters and CTR mode.

## Model

| member | source | states |
|---|---|---|
| Common.ToU32 | src/gaens/crypto.c:62 | the `uint32_t` conversion: congruent to its argument modulo 2^32, and the identity on [0, 2^32) |
| Common.TruncDiv | src/gaens/crypto.c:62 | C division truncates toward zero: it agrees with floor division for non-negative dividends and is the negated quotient of the magnitude otherwise |
| Common.XorBitsInvolutive | src/gaens/crypto.c:176-177 | XOR with the same bits twice gives the input back (proved by induction over the bits) |
| Common.XorPrefixInvolutive | src/gaens/crypto.c:201-202 | byte-wise XOR of data with a pad, applied twice, is the identity |
| Common.Le32RoundTrip | src/gaens/crypto.c:106 | the four native (little-endian) bytes of a `uint32_t` decode back to the value |
| Common.Le32Injective | src/gaens/crypto.c:106 | distinct interval numbers give distinct 4-byte images |
| Primitives.IdentityIsBlockCipher | src/gaens/crypto.c:116-117 | the block-cipher requirement can be satisfied, so no contract below is vacuous |
| Primitives.EncryptInjective | src/gaens/crypto.c:116-117 | ECB encryption under a fixed 16-byte key is injective |
| Primitives.KeystreamLength | src/gaens/crypto.c:176-177 | k counter blocks give 16 k keystream bytes |
| Primitives.BlocksFor | src/gaens/crypto.c:175-177 | from stream offset 0, CTR uses the fewest 16-byte blocks that cover the data |
| Primitives.CtrRoundTrip | src/gaens/crypto.c:192-202 | CTR with the same key and initial counter block undoes itself |
| Primitives.CtrIsXor | src/gaens/crypto.c:176-177 | CTR output byte i is input byte i XOR keystream byte i |
| Crypto.EnIntervalNumber | src/gaens/crypto.c:52-65 | a failed clock read returns -1 and leaves the output as it was; a successful one returns 0 and the interval number |
| Crypto.IntervalOf | src/gaens/crypto.c:62 | within 32-bit range the interval number is floor(seconds / 600); the ten minutes before the epoch truncate to interval 0 |
| Crypto.IntervalAdvancesEveryTenMinutes | src/gaens/crypto.h:49-58 | 600 seconds later the interval number is one higher (modulo 2^32) |
| Crypto.TekTimestampOf | src/gaens/crypto.c:72-73 | the timestamp is a multiple of 144 with ts <= n < ts + 144 |
| Crypto.TekWindowIsAlignedPeriod | src/gaens/crypto.h:60-71 | a TEK is valid in the interval it was made, and is valid at m exactly when m lies in the same aligned 144-interval period |
| Crypto.Tek | src/gaens/crypto.c:67-82 | the timestamp is the aligned period start (0 when the clock read fails, whose error is ignored); rc is 0 iff the random draw succeeds, and then the TEK is the random bytes |
| Crypto.InfoStrings | src/gaens/crypto.c:87 | both info strings are 7 bytes with no terminator, and they differ |
| Crypto.HkdfGenerateKey | src/gaens/crypto.c:227-246 | succeeds iff the input and output lengths agree and HKDF succeeds; the key is HKDF with empty salt; every failure returns -1 |
| Crypto.Rpik | src/gaens/crypto.c:84-97 | RPIK = HKDF(TEK, info "EN-RPIK"), with the same failure cases |
| Crypto.Aemk | src/gaens/crypto.c:149-162 | AEMK = HKDF(TEK, info "EN-AEMK"), with the same failure cases |
| Crypto.PaddedData | src/gaens/crypto.c:103-106 | the RPI plaintext is one 16-byte block |
| Crypto.PaddedDataLayout | src/gaens/crypto.c:102-106 | bytes 0-5 are "EN-RPI", bytes 6-11 are zero, bytes 12-15 decode to the interval number |
| Crypto.PaddedDataInjective | src/gaens/crypto.c:103-106 | the padded block determines the interval number |
| Crypto.RpiOf | src/gaens/crypto.c:103-117 | the RPI is one 16-byte block, and decrypting it under its RPIK gives back exactly the padded block of its interval |
| Crypto.RpiRoundTrip | src/gaens/crypto.c:127-147 | the interval number can be read back from the last four bytes of a decrypted RPI |
| Crypto.RpiDistinctAcrossIntervals | src/gaens/crypto.c:99-125 | under one RPIK, distinct intervals give distinct RPIs |
| Crypto.AemOf | src/gaens/crypto.c:164-185 | the AEM has as many bytes as the metadata |
| Crypto.AemRoundTrip | src/gaens/crypto.c:187-210 | decrypting with the same AEMK and the same original RPI returns the metadata |
| Crypto.CryptoContext.constructor | src/gaens/crypto.c:43-50 | both AES contexts start initialised with no key loaded |
| Crypto.CryptoContext.Rpi | src/gaens/crypto.c:99-125 | rc is 0 iff the key setup and the ECB call succeed; then the output is the RPI of the current interval (of the stale `en_in_j` if the clock failed); the RPI context holds the encryption key |
| Crypto.CryptoContext.RpiDecrypt | src/gaens/crypto.c:127-147 | rc is 0 iff both calls succeed; then the output is the decryption of the RPI; the RPI context holds the decryption key |
| Crypto.CryptoContext.Aem | src/gaens/crypto.c:164-185 | rc is 0 iff both calls succeed; then the output is AES-CTR of the metadata from the caller's original RPI; the AEM context holds the encryption key |
| Crypto.CryptoContext.AemDecrypt | src/gaens/crypto.c:187-210 | the same CTR transformation keyed for encryption, from the original RPI |
| Crypto.CryptoContext.CtrInPlace | src/gaens/crypto.c:174-177 | the output is the CTR image of the input, and the counter buffer is advanced past the blocks used |
| Gaens.MacroPrecedence | src/gaens/gaens.h:25 | the macro is 20 on its own, but `k * GAENS_SERVICE_DATA_LENGTH` is k * 20 only for k = 1 (2 gives 36) |
| Gaens.ExpiredIffNoLongerValid | src/gaens/gaens.h:118-128 | from its start on, a TEK is expired exactly when it is no longer in its validity window |
| Gaens.Gaens.UpdateRpi | src/gaens/gaens.h:62-73 | rc is 0 iff clock, key setup and encryption succeed; then the stored RPI is the current interval's RPI and the change time is now; otherwise nothing changes; the keys never change |
| Gaens.Gaens.UpdateKeys | src/gaens/gaens.h:75-87 | all-or-nothing: rc is 0 iff clock, random draw and both HKDF calls succeed; then the TEK is the random bytes, its timestamp is the aligned period start, it is not yet expired, and RPIK/AEMK are derived from it; otherwise no key changes; the RPI is not touched |
| Gaens.Gaens.GetRpi | src/gaens/gaens.h:33-40 | returns 0 and a copy of the stored RPI |
| Gaens.Gaens.GetRpiDecrypted | src/gaens/gaens.h:42-49 | on success the output is the stored RPI decrypted under the current RPIK |
| Gaens.Gaens.CopyOfRpi | src/gaens/crypto.h:116-118 | a fresh buffer holding the current RPI, so CTR cannot alter the stored RPI |
| Gaens.Gaens.GetTek | src/gaens/gaens.h:51-60 | returns 0, a copy of the TEK and its timestamp |
| Gaens.Gaens.EncryptMetadata | src/gaens/gaens.h:89-100 | on success the 4-byte AEM is CTR of the metadata under the AEMK with the current RPI; the stored RPI stays |
| Gaens.Gaens.DecryptMetadata | src/gaens/gaens.h:102-103 | on success the output is CTR of the AEM under the current RPI, and re-encrypting it gives the AEM back |
| Gaens.Gaens.BleAddrExpired | src/gaens/gaens.h:105-116 | negative iff the clock fails; otherwise 1 iff at least 600 s have passed since the last RPI change, else 0 |
| Gaens.Gaens.TekExpired | src/gaens/gaens.h:118-128 | negative iff the clock fails; otherwise 1 iff the current interval is at least 144 past the TEK timestamp, else 0 |
| Gaens.ValidImpliesNotExpired | src/gaens/gaens.h:118-128 | a TEK within its validity window is not expired |
| Gaens.FreshTekNotExpired | src/gaens/gaens.h:82-83 | right after a key update the TEK is not expired, and it is expired from 144 intervals on |
| Gaens.LastIntervalTekExpiresNext | src/gaens/gaens.h:118-128 | expiry counts from the aligned period start: a TEK generated in the last interval of a period is not expired then but is expired in the next interval |
| Gaens.TekGeneratedAtPeriodEndExpiresAfterTenMinutes | src/gaens/gaens.h:118-120 | a TEK generated at 143 * 600 s is stamped 0 and expired at 144 * 600 s, ten minutes later |
| GaensLegacy.EnIntervalNumber | src/gaens/gaens.c:17-24 | the value is bounded by (2^32 - 1) / 600, and it is floor(seconds / 600) for seconds within 32 bits |
| GaensLegacy.IntervalVariantsAgreeOnlyWithin32Bits | src/gaens/gaens.c:21 | the legacy and crypto.c interval numbers agree on [0, 2^32); they differ at 2^32 and at -1, because the cast precedes the division |
| GaensLegacy.StoreInterval | src/gaens/gaens.c:21 | the store succeeds iff the pointer is valid |
| GaensLegacy.TekAsWritten | src/gaens/gaens.c:26-39 | as written, gaens_tek faults on every input: it stores through a null pointer |
| GaensLegacy.TekWith | src/gaens/gaens.c:26-39 | given the pointer it passes on, gaens_tek faults iff that pointer is null, and otherwise finishes from the stored interval number |
| GaensLegacy.TekAsWrittenFaults | src/gaens/gaens.c:28-31 | on every input the as-written gaens_tek and the corrected one differ |
| GaensLegacy.TekFrom | src/gaens/gaens.c:30-38 | an aligned timestamp; rc 0 iff the draw succeeds; the TEK is the two random bytes in native order |
| GaensLegacy.Tek | src/gaens/gaens.c:26-39 | the corrected gaens_tek returns; its timestamp is the aligned start of the current rolling period, and rc is 0 iff the draw succeeds |
| GaensLegacy.TekAgreesWithCrypto | src/gaens/gaens.c:26-39 | while the seconds fit in 32 bits, the corrected gaens_tek and crypto.c's TEK generation agree on the timestamp and on the return code |
| GaensLegacy.Rpik | src/gaens/gaens.c:41-53 | succeeds iff HKDF does; the 2-byte RPIK is HKDF of the 2-byte TEK with info "EN-RPIK" |
| GaensLegacy.RpiBlock | src/gaens/gaens.c:57-61 | the local block equals the crypto.c padded block of the legacy interval number |
| GaensLegacy.Rpi | src/gaens/gaens.c:55-66 | returns 0 for every key and time, with no encryption performed |
| GaensTest.ArraysEq | src/gaens/gaens_test.c:35-45 | returns 0 or 1, and 1 iff the first `len` bytes agree (loop invariant: the prefix scanned so far agrees) |
| GaensTest.TestIntervals | src/gaens/gaens_test.c:77-88 | the two test times fall in intervals 2691752 and 2691753 |
| GaensTest.UpdateAndGetRpi | src/gaens/gaens_test.c:79-82 | after updating at time t, the copied RPI is the RPI of t's interval |
| GaensTest.CorrectDecryptedRpi | src/gaens/gaens_test.c:101-104 | the reference buffer is the padded block of the current interval |
| GaensTest.TestRpi | src/gaens/gaens_test.c:63-111 | the four checks give 0, 1, 0, 1, as the test expects |
| GaensTest.DummyMetadata | src/gaens/gaens_test.c:128 | the metadata bytes are "HELP" |
| GaensTest.EncryptInto | src/gaens/gaens_test.c:130-131 | the AEM is CTR of the metadata under the current RPI |
| GaensTest.TestAem | src/gaens/gaens_test.c:113-156 | a repeated encryption gives an equal AEM (1), and the rotated AEM decrypts to "HELP" (1); the third check is 1 iff the two CTR images coincide |
| GaensTest.RunAll | src/gaens/gaens_test.c:158-167 | on one fresh module, the six deterministic checks give 0, 1, 0, 1, 1, 1 |
| Storage.EntryImage | src/records/storage.c:110-157 | 34 bytes: the length field 0x0019 counts bytes 9-33, bytes 11-30 are the service data, byte 33 is the RSSI |
| Storage.Unpack | src/records/storage.c:125-156 | a record decodes iff it has the 34-byte length and the fixed bytes 00 19 10 00 at 7-10 and 01 02 at 31-32; a decoded record has a 24-bit sequence number and the stored service data and RSSI |
| Storage.UnpackPack | src/records/storage.c:110-157 | a packed record decodes to the sequence number modulo 2^24, the timestamp, the 20 service-data bytes and the RSSI |
| Storage.LowBytesOfSequenceNumber | src/records/storage.c:114-118 | bytes 0-2 depend only on the low 24 bits of the sequence number |
| Storage.Be24RoundTrip | src/records/storage.c:116-118 | the three bytes, most significant first, decode to the sequence number modulo 2^24 |
| Storage.ShiftOfNegative | src/records/storage.c:120-123 | shifting a negative timestamp and truncating gives the bytes of its two's-complement pattern |
| Storage.BeI32OfPattern | src/records/storage.c:120-123 | the four bytes of a 32-bit pattern read back as its signed value |
| Storage.BeI32RoundTrip | src/records/storage.c:120-123 | bytes 3-6 decode to the timestamp, negative timestamps included |
| Storage.StoredImageAsWritten | src/records/storage.c:41-45 | as written, the flash receives 33 bytes |
| Storage.RssiLostAsWritten | src/records/storage.c:153-156 | index 33 lies outside the 33-byte buffer; the stored bytes do not depend on the RSSI, and no stored record decodes |
| Storage.NextSequenceNumber | src/records/storage.c:51-58 | the counter stays at most 0xFFFFFF; below it the counter becomes s + 1, at it the counter becomes 0 |
| Storage.NextSequenceNumberWraps | src/records/storage.c:53-58 | from a valid counter, the next value is (s + 1) mod 2^24 |
| Storage.FlashWrite | src/records/storage.c:45 | the written range holds the data, and the bytes before and after it are unchanged |
| Storage.Erased | src/records/storage.c:80 | the erased chip is EXTMEM_CHIP_SIZE bytes of 0xFF |
| Storage.ConsecutiveWritesDisjoint | src/records/storage.c:60 | the next record, written at the advanced offset, leaves the previous one intact |
| Storage.Storage.constructor | src/records/storage.c:23-24 | the sequence number and offset start at 0 |
| Storage.Storage.PackEntry | src/records/storage.c:110-157 | the buffer's first 34 bytes become the record image of the current sequence number; the rest is untouched |
| Storage.Storage.PackHeader | src/records/storage.c:114-131 | bytes 0-10 are the header and the rest is untouched |
| Storage.Storage.ExtmemWrite | src/records/storage.c:45-49 | succeeds iff the driver does and the range fits the chip; then the flash is programmed, otherwise unchanged |
| Storage.Storage.WriteEntry | src/records/storage.c:38-63 | on success the record with the pre-increment sequence number sits at the old offset, the counter advances with wrap and the offset grows by 34; on failure -1 and nothing changes |
| Storage.Storage.Read | src/records/storage.c:65-76 | with the corrected record length: the buffer's first 34 bytes are zeroed, then on success hold the flash at `offset`; -1 on failure; `len` is not consulted |
| Storage.Storage.DeleteAll | src/records/storage.c:78-89 | on success the chip is erased and the offset reset, with the sequence number unchanged; on failure -1 and nothing changes |
| Storage.ReadAfterWrite | src/records/storage.h:30-39 | the bytes written at an offset decode to the logged fields, and the earlier contents are kept |
| Wens.PrefixOverwriteFrame | src/ble/services/wens/wens.c:412 | an accepted memcpy keeps the size, lands at byte 0 and leaves the bytes past it alone |
| Wens.PrefixOverwriteIdempotent | src/ble/services/wens/wens.c:467 | writing the same bytes twice equals writing once, and a full-size write replaces the value |
| Wens.PrefixOverwriteAbsorbs | src/ble/services/wens/wens.c:518 | a later write at least as long erases every trace of an earlier one |
| Wens.WriteResult | src/ble/services/wens/wens.c:407-416 | non-negative iff len fits; it is then len, and otherwise the negated invalid-length error 0x0d |
| Wens.WensService.constructor | src/ble/services/wens/wens.c:96-121 | the initial images: the given ENS settings, the key list holding timestamp 0x43421277 and a zero key, and a zeroed WEN status and ENS record |
| Wens.WensService.WriteEnsSettings | src/ble/services/wens/wens.c:400-417 | an over-long write is refused and changes nothing; otherwise a prefix overwrite at byte 0 whatever the offset; other characteristics unchanged |
| Wens.WensService.WriteTemporaryKeyList | src/ble/services/wens/wens.c:455-469 | the same rule on the 20-byte key list |
| Wens.WensService.WriteRacp | src/ble/services/wens/wens.c:484-491 | returns len and changes nothing |
| Wens.WensService.WriteWenStatus | src/ble/services/wens/wens.c:506-521 | the same rule on the WEN status |
| Wens.WensService.GetEnsSettings | src/ble/services/wens/wens.c:225-229 | returns 0 and the current settings |
| Wens.WensService.EnsLogNotify | src/ble/services/wens/wens.c:231-238 | the record becomes the latest record before the notification result is returned |
| Wens.WensService.EnsSettingsIndicate | src/ble/services/wens/wens.c:270-285 | the settings are stored whatever the indication's result, which is returned |
| Bas.NotifyResult | src/ble/services/bs/bas.c:74-76 | "not connected" maps to 0 and any other result passes through |
| Bas.LevelAfter | src/ble/services/bs/bas.c:67-72 | a level above 100 leaves the current level; any other level replaces it; a percentage stays a percentage |
| Bas.LevelStaysPercentage | src/ble/services/bs/bas.c:32 | from the initial 100, any sequence of set requests keeps the level at most 100 |
| Bas.LevelsAfterBounded | src/ble/services/bs/bas.c:63-77 | from any percentage, any request sequence keeps it a percentage (by induction) |
| Bas.BatteryService.constructor | src/ble/services/bs/bas.c:32 | the level starts at 100 |
| Bas.BatteryService.SetBatteryLevel | src/ble/services/bs/bas.c:63-77 | above 100: -EINVAL, no notification, level unchanged; otherwise stored and notified, with the mapped notify result |
| Bas.BatteryService.GetBatteryLevel | src/ble/services/bs/bas.c:61 | the stored level, at most 100 |
| Bas.BatteryService.ReadBlvl | src/ble/services/bs/bas.c:114-120 | the one-byte value read is the stored level |

## Left out

- AES-128, HKDF-SHA256 and SHA-256 are mbedtls code and are not modelled. They are parameters constrained only by `IsBlockCipher` and `IsKdf`.
- Crypto.CryptoContext.Aem: the caller's `rpi` buffer afterwards is unspecified in the contract, because crypto.h says only that the library may change it. `CtrInPlace` advances it.
- The clock (`clock_gettime`, `clock_settime`, `time`) is left out. So are `sys_csrand_get` and `src/time/time.c`. Readings and random bytes are parameters, and failures are boolean parameters.
- `src/gaens/gaens.c` implements the older API, not `gaens.h`. The implementation of `gaens.h` is not part of this model, so `Gaens.Gaens` realises the header's documented behaviour on top of crypto.c.
  - `gaens_init` is not modelled. The constructor starts from zeroed keys.
  - Gaens.Gaens.UpdateKeys is taken to commit all at once. Gaens.Gaens.UpdateRpi is taken to refuse a failed clock read.
  - These two choices are modelling decisions, not behaviour taken from the source.
- Crypto.Tek stores timestamp 0 when the clock read fails, as crypto.c does. Gaens.Gaens.UpdateKeys refuses in that case instead of storing it.
- Crypto.CryptoContext.Rpi: the uninitialised `en_in_j` after a failed clock read is the parameter `stale`. No particular value is assumed.
- Clock times are not bounded as `uint32_t`. GaensTest.TestAem takes the clock reading `now` that `get_current_time` returns as a parameter.
- GaensTest.TestAem does not claim that the third AEM differs from the first. That is a probabilistic property of AES, not something an abstract cipher implies.
- `crypto_rpi_decrypt` and `crypto_aem_decrypt` are defined in crypto.c but not declared in crypto.h. They are modelled as ordinary methods.
- Storage.Storage.Read: zeroes and reads the corrected 34-byte record and needs a buffer of at least 34 bytes, where storage.c:67-69 zeroes and reads `SIZE_OF_ONE_ENTRY` = 33 bytes. It is the corrected half of the storage.c:156 finding, so that a record written by Storage.Storage.WriteEntry is read back whole.
- Gaens.Gaens.TekExpired: counts the 144 intervals from the TEK's aligned timestamp, as crypto.h:60-71 defines validity, not "24 hours since the last TEK was generated" as gaens.h:118-120 words it. A TEK generated late in a period therefore expires sooner than 24 hours after generation (Gaens.LastIntervalTekExpiresNext).
- `src/records/extmem.c` is the SPI-NOR driver and is not modelled. The flash is a byte sequence of EXTMEM_CHIP_SIZE bytes.
  - Storage.Storage.ExtmemWrite and Storage.Storage.Read fail for a range that reaches past the chip. storage.c itself has no bound check, so this is a modelling assumption.
  - An erase sets every byte to 0xFF.
  - Storage.Storage.Read: a failed read is taken to leave the zeroed buffer untouched. The driver's `flash_read` may have written part of the transfer before it fails, so the real buffer could then hold some flash bytes instead of zeros.
- The offset after a successful write is the old offset plus 34, which never reaches 2^32 within the chip.
- storage.h declares `storage_write_entry` with a `tx_power` argument that the definition lacks. The model follows the definition, in which TX power is never packed.
- `LOG_ERR`, `LOG_INF`, `printk` and the hex dumps are left out, including the print of the wrong buffer in the AEM test.
- BLE radio, advertising, scanning and connections are left out (`src/ble/*.c`, `src/main.c`).
- GATT service tables, the other services (`dts.c`, `dis.c`), `bt_gatt_notify`, `bt_gatt_indicate` and `bt_gatt_attr_read` are left out.
  - Notify and indicate results are parameters.
  - Read callbacks other than `read_blvl` are not modelled.
- The byte sizes of `ens_settings_t`, `wen_status_t` and `ens_log_t` depend on compiler padding and on headers outside this model. They are constructor parameters.
- Wens.WensService.WriteTemporaryKeyList takes `temp_key_list_t` to be 20 bytes: a `uint32_t` timestamp and a 16-byte key.
- The write callbacks take `offset`, which they ignore, as the source does. Their `flags`, connection and attribute arguments are not part of the model's signatures: the callbacks never read them.

## Findings

| source | as written | input that shows it | evidently intended | confidence | as-written member | corrected member |
|---|---|---|---|---|---|---|
| src/records/storage.c:156 | `_pack_ens_log_entry` stores `buf[33]` into the `SIZE_OF_ONE_ENTRY` = 33 byte `entry` (storage.h:11), and 33 bytes go to flash | any call of `storage_write_entry`, for example with rssi 0x7F | a 34-byte record whose length field 0x19 counts bytes 9-33, with the RSSI stored | high (not executed) | Storage.StoredImageAsWritten, Storage.RssiLostAsWritten | Storage.EntryImage, Storage.UnpackPack, Storage.Storage.WriteEntry, Storage.Storage.Read |
| src/gaens/gaens.c:28-31 | `gaens_tek` passes a null `uint32_t *` to `gaens_en_interval_number`, which stores through it, and then reads it | any call of `gaens_tek` | a local `uint32_t` whose address is passed | high (not executed) | GaensLegacy.TekAsWritten, GaensLegacy.TekAsWrittenFaults | GaensLegacy.Tek, GaensLegacy.TekAgreesWithCrypto |
