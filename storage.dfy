/**
 * The ENS log writer of src/records/storage.c: each received advertisement
 * becomes a fixed-layout ENS record (Table 4.2 of the WENS specification),
 * appended to the external flash at a running offset and numbered by a
 * 24-bit wrapping sequence number.
 *
 * The flash is a byte sequence of the chip's size. Whether a flash
 * operation succeeds is a parameter; an access reaching past the end of the
 * chip always fails.
 */
module Storage {
  import opened Common

  /** SIZE_OF_ONE_ENTRY as storage.h defines it. */
  const SizeOfOneEntry := 33

  /** The bytes the packer fills, indices 0 to 33: the evident size of one entry. */
  const EntryLength := 34

  const ChipSize := 4194304  // EXTMEM_CHIP_SIZE
  const MaxSequenceNumber := 0xFF_FFFF
  const ServiceDataLength := 20  // RPI followed by AEM

  /**
   * `(uint8_t)(x >> k)` with `d` = 2^k: an arithmetic shift (division
   * rounding down), then reduction modulo 2^8.
   */
  function ShiftByte(x: int, d: nat): byte
    requires d > 0
  {
    (x / d) % 0x100
  }

  /**
   * Bytes 0 to 10 of a record: the sequence number (low 24 bits) and the
   * timestamp, most significant byte first; the remaining-length field
   * 0x0019; the length 0x10 and type 0x00 of the ENS-specific LTV.
   */
  function Header(sequenceNumber: u32, timestamp: i32): (header: seq<byte>)
    ensures |header| == 11
  {
    [ ShiftByte(sequenceNumber, 0x1_0000), ShiftByte(sequenceNumber, 0x100), ShiftByte(sequenceNumber, 1),
      ShiftByte(timestamp, 0x100_0000), ShiftByte(timestamp, 0x1_0000), ShiftByte(timestamp, 0x100), ShiftByte(timestamp, 1),
      0x00, 0x19, 0x10, 0x00 ]
  }

  /**
   * _pack_ens_log_entry: the header, the 20 bytes of service data, and the
   * RSSI LTV (length 0x01, type 0x02, the RSSI).
   */
  function EntryImage(sequenceNumber: u32, timestamp: i32, serviceData: seq<byte>, rssi: byte): (image: seq<byte>)
    requires |serviceData| >= ServiceDataLength
    ensures |image| == EntryLength
    ensures image[7..9] == [0x00, 0x19] && |image[9..]| == 0x19
    ensures image[11..31] == serviceData[..ServiceDataLength]
    ensures image[33] == rssi
  {
    Header(sequenceNumber, timestamp) + serviceData[..ServiceDataLength] + [0x01, 0x02, rssi]
  }

  /** A decoded ENS record. */
  datatype Entry = Entry(sequenceNumber: nat, timestamp: int, serviceData: seq<byte>, rssi: byte)

  function Be24(b0: byte, b1: byte, b2: byte): nat
  {
    b0 as int * 0x1_0000 + b1 as int * 0x100 + b2 as int
  }

  /** Four bytes, most significant first, read as a two's-complement `int`. */
  function BeI32(b0: byte, b1: byte, b2: byte, b3: byte): int
  {
    var u := b0 as int * 0x100_0000 + b1 as int * 0x1_0000 + b2 as int * 0x100 + b3 as int;
    if u >= 0x8000_0000 then u - 0x1_0000_0000 else u
  }

  /** Reads one ENS record back; None unless it has the record's length and fixed bytes. */
  function Unpack(image: seq<byte>): (e: Option<Entry>)
    ensures e.Some? ==> |image| == EntryLength && e.value.sequenceNumber <= MaxSequenceNumber
    ensures e.Some? ==> e.value.serviceData == image[11..31] && e.value.rssi == image[33]
    ensures e.Some? <==> |image| == EntryLength && image[7..11] == [0x00, 0x19, 0x10, 0x00] && image[31..33] == [0x01, 0x02]
  {
    if |image| == EntryLength && image[7..11] == [0x00, 0x19, 0x10, 0x00] && image[31..33] == [0x01, 0x02] then
      Some(Entry(Be24(image[0], image[1], image[2]), BeI32(image[3], image[4], image[5], image[6]), image[11..31], image[33]))
    else
      None
  }

  /** The bytes above the low 24 bits do not reach bytes 0 to 2 of the record. */
  lemma LowBytesOfSequenceNumber(s: u32)
    ensures (s / 0x1_0000) % 0x100 == (s % 0x100_0000) / 0x1_0000
    ensures (s / 0x100) % 0x100 == ((s % 0x100_0000) / 0x100) % 0x100
    ensures s % 0x100 == (s % 0x100_0000) % 0x100
  {
    var q, r := s / 0x100_0000, s % 0x100_0000;
    assert s == q * 0x100_0000 + r;
    assert s / 0x1_0000 == q * 0x100 + r / 0x1_0000;
    assert s / 0x100 == q * 0x1_0000 + r / 0x100;
    var a, b := r / 0x100, r % 0x100;
    assert s == (q * 0x1_0000 + a) * 0x100 + b;
  }

  lemma Be24Split(r: nat)
    requires r < 0x100_0000
    ensures (r / 0x1_0000) * 0x1_0000 + ((r / 0x100) % 0x100) * 0x100 + r % 0x100 == r
  {
  }

  /** The three low bytes of `s`, most significant first, give back `s` modulo 2^24. */
  lemma Be24RoundTrip(s: u32)
    ensures Be24(ShiftByte(s, 0x1_0000), ShiftByte(s, 0x100), ShiftByte(s, 1)) == s % 0x100_0000
  {
    var r := s % 0x100_0000;
    LowBytesOfSequenceNumber(s);
    assert ShiftByte(s, 0x1_0000) == r / 0x1_0000;
    assert ShiftByte(s, 0x100) == (r / 0x100) % 0x100;
    assert ShiftByte(s, 1) == r % 0x100;
    Be24Split(r);
  }

  /**
   * Shifting a negative timestamp right by 24, 16, 8 or 0 bits and
   * truncating gives the bytes of its 32-bit two's-complement pattern.
   */
  lemma ShiftOfNegative(t: int)
    requires -0x8000_0000 <= t < 0
    ensures ShiftByte(t, 0x100_0000) == ShiftByte(t + 0x1_0000_0000, 0x100_0000)
    ensures ShiftByte(t, 0x1_0000) == ShiftByte(t + 0x1_0000_0000, 0x1_0000)
    ensures ShiftByte(t, 0x100) == ShiftByte(t + 0x1_0000_0000, 0x100)
    ensures ShiftByte(t, 1) == ShiftByte(t + 0x1_0000_0000, 1)
  {
    ShiftOfNegative24(t);
    ShiftOfNegative16(t);
    ShiftOfNegative8(t);
    ShiftOfNegative0(t);
  }

  lemma ShiftOfNegative0(t: int)
    requires -0x8000_0000 <= t < 0
    ensures (t / 1) % 0x100 == ((t + 0x1_0000_0000) / 1) % 0x100
  {
    assert t + 0x1_0000_0000 == t + 0x100_0000 * 0x100;
  }

  lemma ShiftOfNegative24(t: int)
    requires -0x8000_0000 <= t < 0
    ensures (t / 0x100_0000) % 0x100 == ((t + 0x1_0000_0000) / 0x100_0000) % 0x100
  {
  }

  lemma ShiftOfNegative16(t: int)
    requires -0x8000_0000 <= t < 0
    ensures (t / 0x1_0000) % 0x100 == ((t + 0x1_0000_0000) / 0x1_0000) % 0x100
  {
  }

  lemma ShiftOfNegative8(t: int)
    requires -0x8000_0000 <= t < 0
    ensures (t / 0x100) % 0x100 == ((t + 0x1_0000_0000) / 0x100) % 0x100
  {
  }

  /** The bytes of a 32-bit pattern, most significant first, read back as a two's-complement `int`. */
  lemma BeI32OfPattern(u: u32)
    ensures BeI32(ShiftByte(u, 0x100_0000), ShiftByte(u, 0x1_0000), ShiftByte(u, 0x100), ShiftByte(u, 1))
         == if u >= 0x8000_0000 then u - 0x1_0000_0000 else u
  {
    Split256(u);
    Split256(u / 0x100);
    Split256(u / 0x1_0000);
    assert u / 0x100 / 0x100 == u / 0x1_0000;
    assert u / 0x1_0000 / 0x100 == u / 0x100_0000;
    assert ShiftByte(u, 0x100_0000) == u / 0x100_0000;
    assert ShiftByte(u, 1) == u % 0x100;
  }

  /** The four bytes of a timestamp give back the timestamp. */
  lemma BeI32RoundTrip(t: i32)
    ensures BeI32(ShiftByte(t, 0x100_0000), ShiftByte(t, 0x1_0000), ShiftByte(t, 0x100), ShiftByte(t, 1)) == t
  {
    if t < 0 {
      ShiftOfNegative(t);
      BeI32OfPattern(t + 0x1_0000_0000);
    } else {
      BeI32OfPattern(t);
    }
  }

  /**
   * A packed record decodes to the fields it was packed from: the sequence
   * number's low 24 bits, the timestamp, the 20 service-data bytes, the RSSI.
   */
  lemma UnpackPack(sequenceNumber: u32, timestamp: i32, serviceData: seq<byte>, rssi: byte)
    requires |serviceData| >= ServiceDataLength
    ensures Unpack(EntryImage(sequenceNumber, timestamp, serviceData, rssi))
         == Some(Entry(sequenceNumber % 0x100_0000, timestamp, serviceData[..ServiceDataLength], rssi))
  {
    var image := EntryImage(sequenceNumber, timestamp, serviceData, rssi);
    assert image[7..11] == [0x00, 0x19, 0x10, 0x00];
    assert image[31..33] == [0x01, 0x02];
    Be24RoundTrip(sequenceNumber);
    BeI32RoundTrip(timestamp);
  }

  /**
   * What storage_write_entry hands to the flash as written: the first
   * SIZE_OF_ONE_ENTRY = 33 bytes of the record, whose last byte the packer
   * stores one past the end of the 33-byte buffer.
   */
  function StoredImageAsWritten(sequenceNumber: u32, timestamp: i32, serviceData: seq<byte>, rssi: byte): (stored: seq<byte>)
    requires |serviceData| >= ServiceDataLength
    ensures |stored| == SizeOfOneEntry
  {
    EntryImage(sequenceNumber, timestamp, serviceData, rssi)[..SizeOfOneEntry]
  }

  /**
   * As written, the packer's top index 33 is outside the buffer, and the
   * stored bytes do not depend on the RSSI: two receptions differing only in
   * signal strength are logged identically, and no stored record decodes.
   */
  lemma RssiLostAsWritten(sequenceNumber: u32, timestamp: i32, serviceData: seq<byte>, rssi1: byte, rssi2: byte)
    requires |serviceData| >= ServiceDataLength
    ensures !(EntryLength - 1 < SizeOfOneEntry)
    ensures StoredImageAsWritten(sequenceNumber, timestamp, serviceData, rssi1)
         == StoredImageAsWritten(sequenceNumber, timestamp, serviceData, rssi2)
    ensures Unpack(StoredImageAsWritten(sequenceNumber, timestamp, serviceData, rssi1)).None?
  {
  }

  /** The sequence number after a successful write: +1 as a uint32, rolling over past 0xFFFFFF. */
  function NextSequenceNumber(s: u32): (next: u32)
    ensures next <= MaxSequenceNumber
    ensures s < MaxSequenceNumber ==> next == s + 1
    ensures s >= MaxSequenceNumber && s < 0xFFFF_FFFF ==> next == 0
  {
    var incremented := ToU32(s + 1);
    if incremented > MaxSequenceNumber then 0 else incremented
  }

  /** Counting from any valid sequence number, the next one is its successor modulo 2^24. */
  lemma NextSequenceNumberWraps(s: u32)
    requires s <= MaxSequenceNumber
    ensures NextSequenceNumber(s) == (s + 1) % (MaxSequenceNumber + 1)
  {
  }

  /** Flash contents after `data` is programmed at `offset`. */
  function FlashWrite(flash: seq<byte>, offset: nat, data: seq<byte>): (r: seq<byte>)
    requires offset + |data| <= |flash|
    ensures |r| == |flash|
    ensures r[offset..offset + |data|] == data
    ensures r[..offset] == flash[..offset] && r[offset + |data|..] == flash[offset + |data|..]
  {
    flash[..offset] + data + flash[offset + |data|..]
  }

  /** The erased chip: every byte 0xFF. */
  function Erased(): (r: seq<byte>)
    ensures |r| == ChipSize && forall i :: 0 <= i < ChipSize ==> r[i] == 0xFF
  {
    seq(ChipSize, _ => 0xFF)
  }

  /** Writing the next record at the following offset leaves the previous record intact. */
  lemma {:induction false} ConsecutiveWritesDisjoint(flash: seq<byte>, offset: nat, first: seq<byte>, second: seq<byte>)
    requires |first| == EntryLength && |second| == EntryLength
    requires offset + 2 * EntryLength <= |flash|
    ensures FlashWrite(FlashWrite(flash, offset, first), offset + EntryLength, second)[offset..offset + EntryLength] == first
  {
    var once := FlashWrite(flash, offset, first);
    var twice := FlashWrite(once, offset + EntryLength, second);
    assert twice[..offset + EntryLength] == once[..offset + EntryLength];
    assert twice[offset..offset + EntryLength] == twice[..offset + EntryLength][offset..];
    assert once[offset..offset + EntryLength] == once[..offset + EntryLength][offset..];
  }

  /** The static `sequence_number` and `memory_offset` of storage.c, and the flash they index. */
  class Storage {
    var sequenceNumber: u32
    var memoryOffset: u32
    var flash: seq<byte>

    ghost predicate Valid()
      reads this
    {
      sequenceNumber <= MaxSequenceNumber && |flash| == ChipSize
    }

    /** Both counters start at 0; the flash holds whatever it held. */
    constructor (initialFlash: seq<byte>)
      requires |initialFlash| == ChipSize
      ensures Valid() && sequenceNumber == 0 && memoryOffset == 0 && flash == initialFlash
    {
      sequenceNumber := 0;
      memoryOffset := 0;
      flash := initialFlash;
    }

    /** _pack_ens_log_entry into `buf`, byte by byte, with the current sequence number. */
    method PackEntry(buf: array<byte>, timestamp: i32, serviceData: seq<byte>, rssi: byte)
      requires buf.Length >= EntryLength && |serviceData| >= ServiceDataLength
      modifies buf
      ensures buf[..EntryLength] == EntryImage(sequenceNumber, timestamp, serviceData, rssi)
      ensures buf[EntryLength..] == old(buf[EntryLength..])
    {
      ghost var image := EntryImage(sequenceNumber, timestamp, serviceData, rssi);
      PackHeader(buf, sequenceNumber, timestamp);
      forall i | 0 <= i < ServiceDataLength {
        buf[11 + i] := serviceData[i];
      }
      buf[31], buf[32], buf[33] := 0x01, 0x02, rssi;
      assert buf[..11] == image[..11];
      assert buf[11..31] == image[11..31];
      assert buf[31..EntryLength] == image[31..];
      assert buf[..EntryLength] == buf[..11] + buf[11..31] + buf[31..EntryLength];
      assert image == image[..11] + image[11..31] + image[31..];
    }

    /** Bytes 0 to 10: sequence number, timestamp, length field, ENS-specific LTV header. */
    static method PackHeader(buf: array<byte>, sequenceNumber: u32, timestamp: i32)
      requires buf.Length >= 11
      modifies buf
      ensures buf[..11] == Header(sequenceNumber, timestamp)
      ensures buf[11..] == old(buf[11..])
    {
      buf[0], buf[1], buf[2] := ShiftByte(sequenceNumber, 0x1_0000), ShiftByte(sequenceNumber, 0x100), ShiftByte(sequenceNumber, 1);
      buf[3], buf[4] := ShiftByte(timestamp, 0x100_0000), ShiftByte(timestamp, 0x1_0000);
      buf[5], buf[6] := ShiftByte(timestamp, 0x100), ShiftByte(timestamp, 1);
      buf[7], buf[8], buf[9], buf[10] := 0x00, 0x19, 0x10, 0x00;
    }

    /** extmem_write: programs `data` at `offset` when the flash succeeds and the range fits the chip. */
    method ExtmemWrite(offset: u32, data: seq<byte>, writeOk: bool) returns (rc: int)
      requires Valid()
      modifies this
      ensures Valid() && sequenceNumber == old(sequenceNumber) && memoryOffset == old(memoryOffset)
      ensures rc == 0 <==> writeOk && offset + |data| <= ChipSize
      ensures rc == 0 ==> flash == FlashWrite(old(flash), offset, data)
      ensures rc != 0 ==> rc == -1 && flash == old(flash)
    {
      if !writeOk || offset + |data| > ChipSize {
        return -1;
      }
      flash := FlashWrite(flash, offset, data);
      return 0;
    }

    /**
     * storage_write_entry: the record is packed with the current sequence
     * number and written at the current offset; only a successful write
     * advances the sequence number and the offset.
     */
    method WriteEntry(timestamp: i32, serviceData: seq<byte>, rssi: byte, writeOk: bool) returns (rc: int)
      requires Valid() && |serviceData| >= ServiceDataLength
      modifies this
      ensures Valid()
      ensures rc == 0 <==> writeOk && old(memoryOffset) + EntryLength <= ChipSize
      ensures rc == 0 ==> && flash == FlashWrite(old(flash), old(memoryOffset), EntryImage(old(sequenceNumber), timestamp, serviceData, rssi))
                          && sequenceNumber == NextSequenceNumber(old(sequenceNumber))
                          && memoryOffset == old(memoryOffset) + EntryLength
      ensures rc != 0 ==> && rc == -1
                          && flash == old(flash) && sequenceNumber == old(sequenceNumber)
                          && memoryOffset == old(memoryOffset)
    {
      var entry := new byte[EntryLength](_ => 0);
      PackEntry(entry, timestamp, serviceData, rssi);
      assert entry[..] == entry[..EntryLength];
      rc := ExtmemWrite(memoryOffset, entry[..], writeOk);
      if rc != 0 {
        return -1;
      }
      sequenceNumber := NextSequenceNumber(sequenceNumber);
      memoryOffset := ToU32(memoryOffset + EntryLength);
      return 0;
    }

    /**
     * storage_read: the first entry-length bytes of `buf` are zeroed, then
     * one record's worth of flash at `offset` is read into them, whatever
     * `len` says.
     */
    method Read(offset: u32, buf: array<byte>, len: nat, readOk: bool) returns (rc: int)
      requires Valid() && buf.Length >= EntryLength
      modifies buf
      ensures rc == 0 <==> readOk && offset + EntryLength <= ChipSize
      ensures rc == 0 ==> buf[..EntryLength] == flash[offset..offset + EntryLength]
      ensures rc != 0 ==> rc == -1 && buf[..EntryLength] == Zeros(EntryLength)
      ensures buf[EntryLength..] == old(buf[EntryLength..])
    {
      forall i | 0 <= i < EntryLength {
        buf[i] := 0;
      }
      if !readOk || offset + EntryLength > ChipSize {
        assert buf[..EntryLength] == Zeros(EntryLength);
        return -1;
      }
      forall i | 0 <= i < EntryLength {
        buf[i] := flash[offset + i];
      }
      return 0;
    }

    /**
     * storage_delete_all: on success the whole chip reads 0xFF and the offset
     * is back at 0, while the sequence number keeps counting.
     */
    method DeleteAll(eraseOk: bool) returns (rc: int)
      requires Valid()
      modifies this
      ensures Valid() && sequenceNumber == old(sequenceNumber)
      ensures rc == 0 <==> eraseOk
      ensures rc == 0 ==> flash == Erased() && memoryOffset == 0
      ensures rc != 0 ==> rc == -1 && flash == old(flash) && memoryOffset == old(memoryOffset)
    {
      if !eraseOk {
        return -1;
      }
      flash := Erased();
      memoryOffset := 0;
      return 0;
    }
  }

  /**
   * What WriteEntry stores, Read returns: the bytes at the old offset decode
   * to the logged fields, and the previous contents elsewhere are kept.
   */
  lemma ReadAfterWrite(flash: seq<byte>, offset: nat, sequenceNumber: u32, timestamp: i32, serviceData: seq<byte>, rssi: byte)
    requires |serviceData| >= ServiceDataLength && offset + EntryLength <= |flash|
    ensures var after := FlashWrite(flash, offset, EntryImage(sequenceNumber, timestamp, serviceData, rssi));
            && Unpack(after[offset..offset + EntryLength])
               == Some(Entry(sequenceNumber % 0x100_0000, timestamp, serviceData[..ServiceDataLength], rssi))
            && after[..offset] == flash[..offset]
  {
    UnpackPack(sequenceNumber, timestamp, serviceData, rssi);
  }
}
