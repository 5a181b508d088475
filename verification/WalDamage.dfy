/** One damaged byte: scan stops at its record and finds every one before it. */
module WalDamage {
  import opened Layout
  import opened Codec
  import opened Crc32
  import opened WalFormat

  lemma CrcDiffers(m: seq<Byte>, i: nat, b: Byte)
    requires i < |m| && m[i] != b
    ensures Crc(m, 0) != Crc(m[i := b], 0)
  {
    OneByteShows(m[..i], m[i], b, m[i + 1..], 0);
    assert m == m[..i] + [m[i]] + m[i + 1..];
    assert m[i := b] == m[..i] + [b] + m[i + 1..];
  }

  /** A header with its checksum field zeroed, as bytes. */
  lemma ZeroedBytes(h: Header)
    ensures HeaderBytes(h.(checksum := 0)) == HeaderBytes(h)[..32] + ToLE(0, 4) + HeaderBytes(h)[36..]
    ensures HeaderBytes(h)[32..36] == ToLE(h.checksum, 4)
  {
    HeaderParts(h);
    HeaderParts(h.(checksum := 0));
    SameBut(HeaderBytes(h), HeaderBytes(h.(checksum := 0)), ToLE(0, 4));
  }

  /** Two headers' bytes with the same fields but one. */
  lemma SameBut(s: seq<Byte>, t: seq<Byte>, z: seq<Byte>)
    requires |s| == |t| == HEADER_SIZE && |z| == 4
    requires t[0..4] == s[0..4] && t[4..6] == s[4..6] && t[6..8] == s[6..8] && t[8..12] == s[8..12]
             && t[12..16] == s[12..16]
    requires t[16..24] == s[16..24] && t[24..32] == s[24..32] && t[32..36] == z && t[36..40] == s[36..40]
    ensures t == s[..32] + z + s[36..]
  {
    Pieces(s);
    Pieces(t);
  }

  lemma LEDiffers(s: seq<Byte>, t: seq<Byte>)
    requires |s| == |t| && s != t
    ensures FromLE(s) != FromLE(t)
  {
    LEBytes(s);
    LEBytes(t);
  }

  /** The fields whose bytes are the same are the same. */
  lemma OtherFieldsSame(s: seq<Byte>, i: nat, b: Byte)
    requires |s| == HEADER_SIZE && i < HEADER_SIZE
    ensures var h, h' := ParseHeader(s), ParseHeader(s[i := b]);
            && (!(4 <= i < 6) ==> h'.kind == h.kind)
            && (!(12 <= i < 16) ==> h'.payloadLen == h.payloadLen)
            && (!(32 <= i < 36) ==> h'.checksum == h.checksum)
  {
    var t := s[i := b];
    assert !(4 <= i < 6) ==> t[4..6] == s[4..6];
    assert !(12 <= i < 16) ==> t[12..16] == s[12..16];
    assert !(32 <= i < 36) ==> t[32..36] == s[32..36];
  }

  /** A header that still passes has kept its payload length. */
  lemma LengthKept(h: Header, i: nat, b: Byte, totalBlocks: nat)
    requires HeaderOk(h, totalBlocks) && i < HEADER_SIZE && HeaderOk(ParseHeader(HeaderBytes(h)[i := b]), totalBlocks)
    ensures ParseHeader(HeaderBytes(h)[i := b]).payloadLen == h.payloadLen
  {
    ParseOfBytes(h);
    OtherFieldsSame(HeaderBytes(h), i, b);
  }

  /** Damage in the checksum itself: the record no longer has the checksum stored with it. */
  lemma ChecksumHit(h: Header, payload: seq<Byte>, i: nat, b: Byte)
    requires 32 <= i < 36 && HeaderBytes(h)[i] != b && h.checksum == RecordChecksum(h, payload)
    ensures var h' := ParseHeader(HeaderBytes(h)[i := b]); RecordChecksum(h', payload) != h'.checksum
  {
    var s := HeaderBytes(h);
    var t := s[i := b];
    var h' := ParseHeader(t);
    ParseOfBytes(h);
    BytesOfParse(t);
    SameButChecksum(s, i, b);
    ZeroedBytes(h);
    ZeroedBytes(h');
    assert t[32..36][i - 32] == b && s[32..36][i - 32] == s[i];
    LEDiffers(s[32..36], t[32..36]);
  }

  lemma SameButChecksum(s: seq<Byte>, i: nat, b: Byte)
    requires |s| == HEADER_SIZE && 32 <= i < 36
    ensures ParseHeader(s[i := b]) == ParseHeader(s).(checksum := ParseHeader(s[i := b]).checksum)
  {
    var t := s[i := b];
    assert t[0..4] == s[0..4] && t[4..6] == s[4..6] && t[6..8] == s[6..8] && t[8..12] == s[8..12]
        && t[12..16] == s[12..16];
    assert t[16..24] == s[16..24] && t[24..32] == s[24..32] && t[36..40] == s[36..40];
  }

  /** Damage elsewhere in the header: the checksum stored is of another message, one byte away. */
  lemma FieldHit(h: Header, payload: seq<Byte>, i: nat, b: Byte)
    requires i < HEADER_SIZE && !(32 <= i < 36) && HeaderBytes(h)[i] != b
    requires h.checksum == RecordChecksum(h, payload) && |payload| == h.payloadLen
    requires ParseHeader(HeaderBytes(h)[i := b]).payloadLen == h.payloadLen
    ensures var h' := ParseHeader(HeaderBytes(h)[i := b]); RecordChecksum(h', payload) != h'.checksum
  {
    var s := HeaderBytes(h);
    var t := s[i := b];
    var h' := ParseHeader(t);
    ParseOfBytes(h);
    BytesOfParse(t);
    OtherFieldsSame(s, i, b);
    ZeroedBytes(h);
    ZeroedBytes(h');
    ChecksumIs(h, payload);
    ChecksumIs(h', payload);
    Message(s, payload, i, b);
    CrcDiffers(s[..32] + ToLE(0, 4) + s[36..] + payload, i, b);
  }

  /** A byte outside the checksum is changed in the message as it is in the header. */
  lemma Message(s: seq<Byte>, payload: seq<Byte>, i: nat, b: Byte)
    requires |s| == HEADER_SIZE && i < HEADER_SIZE && !(32 <= i < 36)
    ensures var t := s[i := b];
            var m := s[..32] + ToLE(0, 4) + s[36..] + payload;
            m[i] == s[i] && t[..32] + ToLE(0, 4) + t[36..] + payload == m[i := b]
  {
  }

  lemma UpdateRight<T>(a: seq<T>, b: seq<T>, k: nat, x: T)
    requires k < |b|
    ensures (a + b)[|a| + k := x] == a + b[k := x] && (a + b)[|a| + k] == b[k]
  {
  }

  /** Damage in the payload. */
  lemma PayloadHit(h: Header, payload: seq<Byte>, k: nat, b: Byte)
    requires k < |payload| && payload[k] != b && |payload| == h.payloadLen
    requires h.checksum == RecordChecksum(h, payload)
    ensures RecordChecksum(h, payload[k := b]) != h.checksum
  {
    var head := HeaderBytes(h.(checksum := 0));
    ChecksumIs(h, payload);
    ChecksumIs(h, payload[k := b]);
    UpdateRight(head, payload, k, b);
    CrcDiffers(head + payload, HEADER_SIZE + k, b);
  }

  lemma HeaderDamaged(r: WalRecord, i: nat, b: Byte, rest: seq<Byte>, totalBlocks: nat, last: nat)
    requires Intact(r, totalBlocks) && i < HEADER_SIZE && HeaderBytes(r.header)[i] != b
    ensures ScanOne(HeaderBytes(r.header)[i := b] + r.payload + rest, totalBlocks, last) == Stop
  {
    assert IntactIn(r, totalBlocks);
    var h, t := r.header, HeaderBytes(r.header)[i := b];
    var s := t + r.payload + rest;
    assert s[..HEADER_SIZE] == t;
    if HeaderOk(ParseHeader(t), totalBlocks) {
      LengthKept(h, i, b, totalBlocks);
      assert s[HEADER_SIZE..HEADER_SIZE + h.payloadLen] == r.payload;
      if 32 <= i < 36 {
        ChecksumHit(h, r.payload, i, b);
      } else {
        FieldHit(h, r.payload, i, b);
      }
    }
  }

  lemma PayloadDamaged(r: WalRecord, k: nat, b: Byte, rest: seq<Byte>, totalBlocks: nat, last: nat)
    requires Intact(r, totalBlocks) && k < |r.payload| && r.payload[k] != b
    ensures ScanOne(HeaderBytes(r.header) + r.payload[k := b] + rest, totalBlocks, last) == Stop
  {
    assert IntactIn(r, totalBlocks);
    var s := HeaderBytes(r.header) + r.payload[k := b] + rest;
    assert s[..HEADER_SIZE] == HeaderBytes(r.header);
    ParseOfBytes(r.header);
    assert s[HEADER_SIZE..HEADER_SIZE + r.header.payloadLen] == r.payload[k := b];
    PayloadHit(r.header, r.payload, k, b);
  }

  /** A record with one damaged byte is not found. */
  lemma DamagedStops(r: WalRecord, i: nat, b: Byte, rest: seq<Byte>, totalBlocks: nat, last: nat)
    requires Intact(r, totalBlocks) && i < |RecordBytes(r)| && RecordBytes(r)[i] != b
    ensures ScanOne(RecordBytes(r)[i := b] + rest, totalBlocks, last) == Stop
  {
    if i < HEADER_SIZE {
      UpdateLeft(HeaderBytes(r.header), r.payload, i, b);
      HeaderDamaged(r, i, b, rest, totalBlocks, last);
    } else {
      UpdateRight(HeaderBytes(r.header), r.payload, i - HEADER_SIZE, b);
      PayloadDamaged(r, i - HEADER_SIZE, b, rest, totalBlocks, last);
    }
  }

  lemma UpdateLeft<T>(a: seq<T>, b: seq<T>, k: nat, x: T)
    requires k < |a|
    ensures (a + b)[k := x] == a[k := x] + b && (a + b)[k] == a[k]
  {
  }

  /** The log with byte i of the record after `rs` damaged, and anything after it. */
  function DamagedLog(rs: seq<WalRecord>, r: WalRecord, i: nat, b: Byte, rest: seq<Byte>): seq<Byte>
    requires i < |RecordBytes(r)|
  {
    LogBytes(rs) + (RecordBytes(r)[i := b] + rest)
  }

  /** Whatever follows, the records before the damaged one are found, and no other. */
  lemma {:induction false} ScanDamaged(rs: seq<WalRecord>, r: WalRecord, i: nat, b: Byte, rest: seq<Byte>,
      totalBlocks: nat, last: nat)
    requires AllIntact(rs, totalBlocks) && Consecutive(rs, last) && Intact(r, totalBlocks)
    requires i < |RecordBytes(r)| && RecordBytes(r)[i] != b
    ensures Scan(DamagedLog(rs, r, i, b, rest), totalBlocks, last) == rs
  {
    if rs == [] {
      assert DamagedLog(rs, r, i, b, rest) == RecordBytes(r)[i := b] + rest;
      DamagedStops(r, i, b, rest, totalBlocks, last);
    } else {
      ScanDamaged(rs[1..], r, i, b, rest, totalBlocks, rs[0].header.lsn);
      Join(RecordBytes(rs[0]), LogBytes(rs[1..]), RecordBytes(r)[i := b] + rest);
      ScanOn(rs[0], DamagedLog(rs[1..], r, i, b, rest), totalBlocks, last);
    }
  }

  lemma Join<T>(a: seq<T>, b: seq<T>, c: seq<T>)
    ensures a + b + c == a + (b + c)
  {
  }
}
