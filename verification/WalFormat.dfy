/** The log's records as bytes: how one is laid out, and what scan makes of a run of them. */
module WalFormat {
  import opened Layout
  import opened Codec
  import opened Crc32

  const WAL_MAGIC: u32 := 0x524C_4157
  const HEADER_SIZE: nat := 40
  const WAL_BEGIN: u16 := 1
  const WAL_BLOCK: u16 := 2
  const WAL_COMMIT: u16 := 3

  datatype Header = Header(
    magic: u32, kind: u16, reserved: u16, blockNo: u32, payloadLen: u32,
    lsn: u64, txn: u64, checksum: u32, pad: u32)

  datatype WalRecord = WalRecord(header: Header, payload: seq<Byte>)

  /** Numbers and how many bytes each takes. */
  datatype Field = Field(value: nat, width: nat)

  function FieldBytes(fs: seq<Field>): seq<Byte> {
    if fs == [] then [] else ToLE(fs[0].value, fs[0].width) + FieldBytes(fs[1..])
  }

  function HeaderFields(h: Header): seq<Field> {
    [Field(h.magic, 4), Field(h.kind, 2), Field(h.reserved, 2), Field(h.blockNo, 4), Field(h.payloadLen, 4),
     Field(h.lsn, 8), Field(h.txn, 8), Field(h.checksum, 4), Field(h.pad, 4)]
  }

  function HeaderBytes(h: Header): (r: seq<Byte>)
    ensures |r| == HEADER_SIZE
  {
    HeaderLayout(h);
    FieldBytes(HeaderFields(h))
  }

  lemma FieldFirst(f: Field, fs: seq<Field>)
    ensures FieldBytes([f] + fs) == ToLE(f.value, f.width) + FieldBytes(fs)
  {
    assert ([f] + fs)[1..] == fs;
  }

  lemma HeaderLayout(h: Header)
    ensures FieldBytes(HeaderFields(h))
            == ToLE(h.magic, 4) + (ToLE(h.kind, 2) + (ToLE(h.reserved, 2) + (ToLE(h.blockNo, 4) + (ToLE(h.payloadLen, 4)
               + (ToLE(h.lsn, 8) + (ToLE(h.txn, 8) + (ToLE(h.checksum, 4) + ToLE(h.pad, 4))))))))
  {
    var fs := HeaderFields(h);
    FieldLast(fs[8]);
    forall k | 0 <= k < 8 ensures FieldBytes(fs[k..]) == ToLE(fs[k].value, fs[k].width) + FieldBytes(fs[k + 1..]) {
      FieldFirst(fs[k], fs[k + 1..]);
      assert fs[k..] == [fs[k]] + fs[k + 1..];
    }
    assert fs[8..] == [fs[8]] && fs[0..] == fs;
  }

  lemma FieldLast(f: Field)
    ensures FieldBytes([f]) == ToLE(f.value, f.width)
  {
    FieldFirst(f, []);
    assert [f] + [] == [f];
  }

  lemma Pow256Widths()
    ensures Pow256(2) == 0x1_0000 && Pow256(4) == 0x1_0000_0000 && Pow256(8) == 0x1_0000_0000_0000_0000
  {
    assert Pow256(3) == 0x100_0000;
    assert Pow256(6) == 0x1_0000_0000_0000;
  }

  function ParseHeader(s: seq<Byte>): Header
    requires |s| == HEADER_SIZE
  {
    Pow256Widths();
    Header(FromLE(s[0..4]), FromLE(s[4..6]), FromLE(s[6..8]), FromLE(s[8..12]), FromLE(s[12..16]),
           FromLE(s[16..24]), FromLE(s[24..32]), FromLE(s[32..36]), FromLE(s[36..40]))
  }

  lemma Digits(b: nat, rest: nat)
    requires b < 0x100
    ensures (b + 0x100 * rest) % 0x100 == b && (b + 0x100 * rest) / 0x100 == rest
  {
  }

  lemma AsByteOf(b: Byte)
    ensures AsByte(b as nat) == b
  {
    ByteOf(b);
  }

  lemma {:induction false} LEBytes(s: seq<Byte>)
    ensures ToLE(FromLE(s), |s|) == s
  {
    if s != [] {
      LEBytes(s[1..]);
      Digits(s[0] as nat, FromLE(s[1..]));
      AsByteOf(s[0]);
      assert s == [s[0]] + s[1..];
    }
  }

  lemma HeaderParts(h: Header)
    ensures var s := HeaderBytes(h);
            && s[0..4] == ToLE(h.magic, 4) && s[4..6] == ToLE(h.kind, 2) && s[6..8] == ToLE(h.reserved, 2)
            && s[8..12] == ToLE(h.blockNo, 4) && s[12..16] == ToLE(h.payloadLen, 4)
            && s[16..24] == ToLE(h.lsn, 8) && s[24..32] == ToLE(h.txn, 8)
            && s[32..36] == ToLE(h.checksum, 4) && s[36..40] == ToLE(h.pad, 4)
  {
    HeaderLayout(h);
    NineParts(ToLE(h.magic, 4), ToLE(h.kind, 2), ToLE(h.reserved, 2), ToLE(h.blockNo, 4), ToLE(h.payloadLen, 4),
              ToLE(h.lsn, 8), ToLE(h.txn, 8), ToLE(h.checksum, 4), ToLE(h.pad, 4), HeaderBytes(h));
  }

  lemma NineParts<T>(a: seq<T>, b: seq<T>, c: seq<T>, d: seq<T>, e: seq<T>, f: seq<T>, g: seq<T>, h: seq<T>, i: seq<T>,
      s: seq<T>)
    requires |a| == 4 && |b| == 2 && |c| == 2 && |d| == 4 && |e| == 4 && |f| == 8 && |g| == 8 && |h| == 4 && |i| == 4
    requires s == a + (b + (c + (d + (e + (f + (g + (h + i)))))))
    ensures |s| == 40
    ensures s[0..4] == a && s[4..6] == b && s[6..8] == c && s[8..12] == d && s[12..16] == e
    ensures s[16..24] == f && s[24..32] == g && s[32..36] == h && s[36..40] == i
  {
    var s4 := b + (c + (d + (e + (f + (g + (h + i))))));
    var s8 := d + (e + (f + (g + (h + i))));
    var s16 := f + (g + (h + i));
    var s32 := h + i;
    assert s[4..] == s4;
    assert s4[4..] == s8 && s[8..] == s8;
    assert s8[8..] == s16 && s[16..] == s16;
    assert s16[16..] == s32 && s[32..] == s32;
    assert s[4..6] == s4[..2] && s[6..8] == s4[2..4];
    assert s[8..12] == s8[..4] && s[12..16] == s8[4..8];
    assert s[16..24] == s16[..8] && s[24..32] == s16[8..16];
    assert s[32..36] == s32[..4] && s[36..40] == s32[4..];
  }

  lemma ParseOfBytes(h: Header)
    ensures ParseHeader(HeaderBytes(h)) == h
  {
    HeaderParts(h);
    Pow256Widths();
    LERoundTrip(h.magic, 4);
    LERoundTrip(h.kind, 2);
    LERoundTrip(h.reserved, 2);
    LERoundTrip(h.blockNo, 4);
    LERoundTrip(h.payloadLen, 4);
    LERoundTrip(h.lsn, 8);
    LERoundTrip(h.txn, 8);
    LERoundTrip(h.checksum, 4);
    LERoundTrip(h.pad, 4);
  }

  lemma BytesOfParse(s: seq<Byte>)
    requires |s| == HEADER_SIZE
    ensures HeaderBytes(ParseHeader(s)) == s
  {
    LEBytes(s[0..4]);
    LEBytes(s[4..6]);
    LEBytes(s[6..8]);
    LEBytes(s[8..12]);
    LEBytes(s[12..16]);
    LEBytes(s[16..24]);
    LEBytes(s[24..32]);
    LEBytes(s[32..36]);
    LEBytes(s[36..40]);
    HeaderLayout(ParseHeader(s));
    Pieces(s);
  }

  lemma Pieces(s: seq<Byte>)
    requires |s| == HEADER_SIZE
    ensures s == s[0..4] + (s[4..6]
            + (s[6..8] + (s[8..12] + (s[12..16] + (s[16..24] + (s[24..32] + (s[32..36] + s[36..40])))))))
  {
  }

  // ------------------------------------------------------------- checksums

  /** record_checksum: the header with a checksum of 0, then the payload. */
  function RecordChecksum(h: Header, payload: seq<Byte>): (c: u32)
  {
    CrcBelow(HeaderBytes(h.(checksum := 0)), 0);
    var c := Crc(HeaderBytes(h.(checksum := 0)), 0);
    CrcBelow(payload, c);
    if h.payloadLen > 0 then Crc(payload, c) else c
  }

  lemma CrcBelow(s: seq<Byte>, crc: nat)
    requires crc < 0x1_0000_0000
    ensures Crc(s, crc) < 0x1_0000_0000
  {
    Pow2Is();
    XorBelow(crc, ONES, 32);
    RegisterBelow(Xor(crc, ONES), s);
    XorBelow(Register(Xor(crc, ONES), s), ONES, 32);
  }

  /** The checksum is the CRC of the header and the payload as one message. */
  lemma ChecksumIs(h: Header, payload: seq<Byte>)
    requires h.payloadLen == 0 ==> payload == []
    ensures RecordChecksum(h, payload) == Crc(HeaderBytes(h.(checksum := 0)) + payload, 0)
  {
    CrcAppend(HeaderBytes(h.(checksum := 0)), payload, 0);
    if h.payloadLen == 0 {
      assert HeaderBytes(h.(checksum := 0)) + payload == HeaderBytes(h.(checksum := 0));
    }
  }

  // --------------------------------------------------------------- records

  function RecordBytes(r: WalRecord): seq<Byte> {
    HeaderBytes(r.header) + r.payload
  }

  /** What scan demands of a header alone. */
  predicate HeaderOk(h: Header, totalBlocks: nat) {
    && h.magic == WAL_MAGIC && h.reserved == 0 && h.pad == 0
    && (h.kind == WAL_BEGIN || h.kind == WAL_BLOCK || h.kind == WAL_COMMIT)
    && h.payloadLen == (if h.kind == WAL_BLOCK then BLOCK_SIZE else 0)
    && (h.kind == WAL_BLOCK ==> h.blockNo != 0 && (totalBlocks != 0 ==> h.blockNo < totalBlocks))
    && (h.kind != WAL_BLOCK ==> h.blockNo == 0)
    && h.lsn != 0
  }

  /** A record written whole: what encode makes, for a block of the disk. */
  ghost predicate Intact(r: WalRecord, totalBlocks: nat) {
    forall x :: x == r ==> IntactIn(x, totalBlocks)
  }

  predicate IntactIn(r: WalRecord, totalBlocks: nat) {
    && HeaderOk(r.header, totalBlocks) && |r.payload| == r.header.payloadLen
    && r.header.checksum == RecordChecksum(r.header, r.payload)
  }

  datatype Step = Whole(record: WalRecord) | Stop

  /** What one turn of scan's loop finds at the front of what is left; `last` is the lsn before, or 0. */
  function ScanOne(s: seq<Byte>, totalBlocks: nat, last: nat): (r: Step)
    ensures r.Whole? ==> |RecordBytes(r.record)| <= |s| && |RecordBytes(r.record)| > 0
  {
    if |s| < HEADER_SIZE then Stop
    else
      var h := ParseHeader(s[..HEADER_SIZE]);
      if !HeaderOk(h, totalBlocks) || (last != 0 && h.lsn != last + 1) then Stop
      else if |s| < HEADER_SIZE + h.payloadLen then Stop
      else
        var payload := s[HEADER_SIZE..HEADER_SIZE + h.payloadLen];
        if RecordChecksum(h, payload) != h.checksum then Stop
        else Whole(WalRecord(h, payload))
  }

  function Scan(s: seq<Byte>, totalBlocks: nat, last: nat): (r: seq<WalRecord>)
    decreases |s|
  {
    match ScanOne(s, totalBlocks, last)
    case Stop => []
    case Whole(record) => [record] + Scan(s[|RecordBytes(record)|..], totalBlocks, record.header.lsn)
  }

  // ------------------------------------------- what was written is found

  function LogBytes(rs: seq<WalRecord>): seq<Byte> {
    if rs == [] then [] else RecordBytes(rs[0]) + LogBytes(rs[1..])
  }

  /** Records with one lsn after another, the first after `last` if there was one. */
  predicate Consecutive(rs: seq<WalRecord>, last: nat) {
    rs != [] ==> (last != 0 ==> rs[0].header.lsn == last + 1) && Consecutive(rs[1..], rs[0].header.lsn)
  }

  ghost predicate AllIntact(rs: seq<WalRecord>, totalBlocks: nat) {
    forall k :: 0 <= k < |rs| ==> Intact(rs[k], totalBlocks)
  }

  /** How many of the records lie whole in the first n bytes. */
  function WholeIn(rs: seq<WalRecord>, n: nat): (k: nat)
    ensures k <= |rs|
  {
    if rs == [] || |RecordBytes(rs[0])| > n then 0
    else 1 + WholeIn(rs[1..], n - |RecordBytes(rs[0])|)
  }

  /** An intact record at the front is found, whatever follows. */
  lemma FindsIntact(r: WalRecord, rest: seq<Byte>, totalBlocks: nat, last: nat)
    requires Intact(r, totalBlocks) && (last != 0 ==> r.header.lsn == last + 1)
    ensures ScanOne(RecordBytes(r) + rest, totalBlocks, last) == Whole(r)
  {
    assert IntactIn(r, totalBlocks);
    var s := RecordBytes(r) + rest;
    assert s[..HEADER_SIZE] == HeaderBytes(r.header);
    ParseOfBytes(r.header);
    assert s[HEADER_SIZE..HEADER_SIZE + r.header.payloadLen] == r.payload;
  }

  /** A record cut short is not found. */
  lemma CutStops(r: WalRecord, n: nat, totalBlocks: nat, last: nat)
    requires Intact(r, totalBlocks) && n < |RecordBytes(r)|
    ensures ScanOne(RecordBytes(r)[..n], totalBlocks, last) == Stop
  {
    assert IntactIn(r, totalBlocks);
    if n >= HEADER_SIZE {
      assert RecordBytes(r)[..n][..HEADER_SIZE] == HeaderBytes(r.header);
      ParseOfBytes(r.header);
    }
  }

  /** A record found, and then whatever is found in the rest. */
  lemma ScanOn(r: WalRecord, rest: seq<Byte>, totalBlocks: nat, last: nat)
    requires Intact(r, totalBlocks) && (last != 0 ==> r.header.lsn == last + 1)
    ensures Scan(RecordBytes(r) + rest, totalBlocks, last) == [r] + Scan(rest, totalBlocks, r.header.lsn)
  {
    FindsIntact(r, rest, totalBlocks, last);
    assert (RecordBytes(r) + rest)[|RecordBytes(r)|..] == rest;
  }

  lemma CutAfter<T>(a: seq<T>, b: seq<T>, n: nat)
    requires |a| <= n <= |a| + |b|
    ensures (a + b)[..n] == a + b[..n - |a|]
  {
  }

  lemma CutWithin<T>(a: seq<T>, b: seq<T>, n: nat)
    requires n <= |a|
    ensures (a + b)[..n] == a[..n]
  {
  }

  lemma TakeMore<T>(s: seq<T>, k: nat)
    requires k < |s|
    ensures s[..k + 1] == [s[0]] + s[1..][..k]
  {
  }

  /** Scanning any prefix of a log finds exactly the records that lie whole in it. */
  lemma {:induction false} ScanPrefix(rs: seq<WalRecord>, n: nat, totalBlocks: nat, last: nat)
    requires AllIntact(rs, totalBlocks) && Consecutive(rs, last) && n <= |LogBytes(rs)|
    ensures Scan(LogBytes(rs)[..n], totalBlocks, last) == rs[..WholeIn(rs, n)]
  {
    if rs != [] && |RecordBytes(rs[0])| <= n {
      ScanPrefix(rs[1..], n - |RecordBytes(rs[0])|, totalBlocks, rs[0].header.lsn);
      ScanFirst(rs, n, totalBlocks, last);
    } else if rs != [] {
      CutWithin(RecordBytes(rs[0]), LogBytes(rs[1..]), n);
      CutStops(rs[0], n, totalBlocks, last);
    }
  }

  /** The first record lies whole in the prefix, and the rest is scanned as it should be. */
  lemma ScanFirst(rs: seq<WalRecord>, n: nat, totalBlocks: nat, last: nat)
    requires rs != [] && Intact(rs[0], totalBlocks) && (last != 0 ==> rs[0].header.lsn == last + 1)
    requires |RecordBytes(rs[0])| <= n <= |LogBytes(rs)|
    requires var m := n - |RecordBytes(rs[0])|;
             Scan(LogBytes(rs[1..])[..m], totalBlocks, rs[0].header.lsn) == rs[1..][..WholeIn(rs[1..], m)]
    ensures Scan(LogBytes(rs)[..n], totalBlocks, last) == rs[..WholeIn(rs, n)]
  {
    var bytes, more := RecordBytes(rs[0]), LogBytes(rs[1..]);
    var m := n - |bytes|;
    CutAfter(bytes, more, n);
    ScanOn(rs[0], more[..m], totalBlocks, last);
    TakeMore(rs, WholeIn(rs[1..], m));
  }

  /** Nothing cut: everything is found. */
  lemma {:induction false} WholeInAll(rs: seq<WalRecord>)
    ensures WholeIn(rs, |LogBytes(rs)|) == |rs|
  {
    if rs != [] {
      WholeInAll(rs[1..]);
    }
  }

  lemma ScanAll(rs: seq<WalRecord>, totalBlocks: nat, last: nat)
    requires AllIntact(rs, totalBlocks) && Consecutive(rs, last)
    ensures Scan(LogBytes(rs), totalBlocks, last) == rs
  {
    WholeInAll(rs);
    ScanPrefix(rs, |LogBytes(rs)|, totalBlocks, last);
    assert LogBytes(rs)[..|LogBytes(rs)|] == LogBytes(rs);
  }

  // ------------------------------------------------- nothing else is found

  /** A record that may be redone: every field in order, and the checksum that of the whole. */
  predicate Acceptable(r: WalRecord, totalBlocks: nat) {
    var h := r.header;
    && h.magic == 0x524C_4157 && h.reserved == 0 && h.pad == 0 && h.lsn != 0
    && h.payloadLen == |r.payload| && h.checksum == Crc(HeaderBytes(h.(checksum := 0)) + r.payload, 0)
    && if h.kind == 2 then |r.payload| == 4096 && h.blockNo != 0 && (totalBlocks != 0 ==> h.blockNo < totalBlocks)
       else (h.kind == 1 || h.kind == 3) && r.payload == [] && h.blockNo == 0
  }

  lemma AcceptableIs(r: WalRecord, totalBlocks: nat)
    ensures Acceptable(r, totalBlocks) <==> IntactIn(r, totalBlocks)
  {
    if r.header.payloadLen == 0 ==> r.payload == [] {
      ChecksumIs(r.header, r.payload);
    }
  }

  function LastOf(rs: seq<WalRecord>, last: nat): nat {
    if rs == [] then last else LastOf(rs[1..], rs[0].header.lsn)
  }

  /** What one turn finds is at the front, acceptable and next in line; it stops only if there is no such record. */
  lemma OneIs(s: seq<Byte>, totalBlocks: nat, last: nat, r: WalRecord)
    ensures ScanOne(s, totalBlocks, last) == Whole(r) <==>
              && Acceptable(r, totalBlocks) && (last != 0 ==> r.header.lsn == last + 1) && RecordBytes(r) <= s
  {
    AcceptableIs(r, totalBlocks);
    if ScanOne(s, totalBlocks, last) == Whole(r) {
      OneSound(s, totalBlocks, last, r);
    }
    if IntactIn(r, totalBlocks) && (last != 0 ==> r.header.lsn == last + 1) && RecordBytes(r) <= s {
      OneFound(s, totalBlocks, last, r);
    }
  }

  lemma OneFound(s: seq<Byte>, totalBlocks: nat, last: nat, r: WalRecord)
    requires IntactIn(r, totalBlocks) && (last != 0 ==> r.header.lsn == last + 1) && RecordBytes(r) <= s
    ensures ScanOne(s, totalBlocks, last) == Whole(r)
  {
    FindsIntact(r, s[|RecordBytes(r)|..], totalBlocks, last);
    assert s == RecordBytes(r) + s[|RecordBytes(r)|..];
  }

  lemma OneSound(s: seq<Byte>, totalBlocks: nat, last: nat, r: WalRecord)
    requires ScanOne(s, totalBlocks, last) == Whole(r)
    ensures IntactIn(r, totalBlocks) && (last != 0 ==> r.header.lsn == last + 1) && RecordBytes(r) <= s
  {
    BytesOfParse(s[..HEADER_SIZE]);
    assert s[..HEADER_SIZE] + r.payload == s[..HEADER_SIZE + |r.payload|];
  }

  /** Of any bytes at all: acceptable records, one lsn after another, as they lie in the file from its start on. */
  predicate ScanGives(s: seq<Byte>, totalBlocks: nat, last: nat, rs: seq<WalRecord>) {
    && (forall k :: 0 <= k < |rs| ==> Acceptable(rs[k], totalBlocks)) && Consecutive(rs, last) && LogBytes(rs) <= s
  }

  /** There is no other to come. */
  ghost predicate ScanEnds(s: seq<Byte>, totalBlocks: nat, last: nat) {
    forall t :: t == s ==> ScanEndsIn(t, totalBlocks, last)
  }

  ghost predicate ScanEndsIn(s: seq<Byte>, totalBlocks: nat, last: nat) {
    forall r :: Acceptable(r, totalBlocks) && (last != 0 ==> r.header.lsn == last + 1) ==> !(RecordBytes(r) <= s)
  }

  /** So scan goes as far as it can. */
  lemma {:induction false} ScanIs(s: seq<Byte>, totalBlocks: nat, last: nat)
    ensures var rs := Scan(s, totalBlocks, last);
            ScanGives(s, totalBlocks, last, rs) && ScanEnds(s[|LogBytes(rs)|..], totalBlocks, LastOf(rs, last))
    decreases |s|
  {
    match ScanOne(s, totalBlocks, last)
    case Stop =>
      assert s[0..] == s;
      Stops(s, totalBlocks, last);
    case Whole(r) =>
      OneIs(s, totalBlocks, last, r);
      var rest := s[|RecordBytes(r)|..];
      ScanIs(rest, totalBlocks, r.header.lsn);
      var more := Scan(rest, totalBlocks, r.header.lsn);
      assert Scan(s, totalBlocks, last) == [r] + more;
      Goes(s, totalBlocks, last, r, rest, more);
  }

  lemma Stops(s: seq<Byte>, totalBlocks: nat, last: nat)
    requires ScanOne(s, totalBlocks, last) == Stop
    ensures ScanEnds(s, totalBlocks, last)
  {
    forall r | Acceptable(r, totalBlocks) && (last != 0 ==> r.header.lsn == last + 1) ensures !(RecordBytes(r) <= s) {
      OneIs(s, totalBlocks, last, r);
    }
    assert ScanEndsIn(s, totalBlocks, last);
  }

  lemma Goes(s: seq<Byte>, totalBlocks: nat, last: nat, r: WalRecord, rest: seq<Byte>, more: seq<WalRecord>)
    requires Acceptable(r, totalBlocks) && (last != 0 ==> r.header.lsn == last + 1) && s == RecordBytes(r) + rest
    requires ScanGives(rest, totalBlocks, r.header.lsn, more)
    ensures ScanGives(s, totalBlocks, last, [r] + more)
    ensures s[|LogBytes([r] + more)|..] == rest[|LogBytes(more)|..]
    ensures LastOf([r] + more, last) == LastOf(more, r.header.lsn)
  {
    assert ([r] + more)[1..] == more;
  }
}
