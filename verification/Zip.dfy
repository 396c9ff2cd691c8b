/** A number below 256 survives the conversion to a byte. */
module BytesAsNumbers {
  lemma ReadsBack(n: nat)
    requires n < 0x100
    ensures (n as bv8) as nat == n
  {
    if n < 128 { if n < 64 { if n < 32 {} else {} } else {} } else { if n < 192 {} else {} }
  }
}

/** The minimal PKZIP reader behind zipped GenICam descriptions, and the writer
    of stored archives the device emulator installs. */
module Zip {
  import BytesAsNumbers
  import opened Crc

  datatype Error =
    | NoDirectoryEnd | Truncated | EmptyArchive | BadCentral | TooLarge | BadLocal
    | TruncatedData | DeflateFailed | UnsupportedMethod | WrongSize | BadChecksum

  datatype Result<T> = Ok(value: T) | Err(error: Error) {
    predicate IsFailure() { Err? }
    function PropagateFailure<U>(): Result<U> requires Err? { Err(error) }
    function Extract(): T requires Ok? { value }
  }

  const EOCD_MAGIC: nat := 0x0605_4b50
  const CENTRAL_MAGIC: nat := 0x0201_4b50
  const LOCAL_MAGIC: nat := 0x0403_4b50
  const METHOD_STORED: nat := 0
  const METHOD_DEFLATE: nat := 8
  const MAX_UNCOMPRESSED: nat := 64 * 1024 * 1024

  function Le16(b0: bv8, b1: bv8): nat { (b0 as nat) + 0x100 * (b1 as nat) }

  function U16At(buf: Bytes, pos: nat): Result<nat> {
    if pos + 2 <= |buf| then Ok(Le16(buf[pos], buf[pos + 1])) else Err(Truncated)
  }

  function U32At(buf: Bytes, pos: nat): Result<nat> {
    if pos + 4 <= |buf|
    then Ok(Le16(buf[pos], buf[pos + 1]) + 0x1_0000 * Le16(buf[pos + 2], buf[pos + 3]))
    else Err(Truncated)
  }

  /** The same four bytes kept as a word, for the checksum comparison. */
  function WordAt(buf: Bytes, pos: nat): Result<Word> {
    if pos + 4 <= |buf| then Ok(Packed(buf[pos..pos + 4])) else Err(Truncated)
  }

  /** The last position at or below `pos`, and no lower than `low`, that holds
      the end-of-directory magic. */
  function ScanBack(zip: Bytes, pos: nat, low: nat): Result<nat>
    requires low <= pos
    decreases pos
  {
    if U32At(zip, pos) == Ok(EOCD_MAGIC) then Ok(pos)
    else if pos == low then Err(NoDirectoryEnd)
    else ScanBack(zip, pos - 1, low)
  }

  function FindEocd(zip: Bytes): Result<nat> {
    if |zip| < 22 then Err(NoDirectoryEnd)
    else
      var start := |zip| - 22;
      ScanBack(zip, start, if start <= 0xffff then 0 else start - 0xffff)
  }

  /** What the directory says about the first file. */
  datatype Entry = Entry(eocd: nat, central: nat, compression: nat, crc: Word,
                         compressed: nat, uncompressed: nat, local: nat, start: nat)

  function Locate(zip: Bytes): Result<Entry> {
    var eocd :- FindEocd(zip);
    var entries :- U16At(zip, eocd + 10);
    var central :- U32At(zip, eocd + 16);
    if entries == 0 then Err(EmptyArchive) else
    var magic :- U32At(zip, central);
    if magic != CENTRAL_MAGIC then Err(BadCentral) else
    var compression :- U16At(zip, central + 10);
    var crc :- WordAt(zip, central + 16);
    var compressed :- U32At(zip, central + 20);
    var uncompressed :- U32At(zip, central + 24);
    var local :- U32At(zip, central + 42);
    if uncompressed > MAX_UNCOMPRESSED then Err(TooLarge) else
    var localMagic :- U32At(zip, local);
    if localMagic != LOCAL_MAGIC then Err(BadLocal) else
    var name :- U16At(zip, local + 26);
    var extra :- U16At(zip, local + 28);
    Ok(Entry(eocd, central, compression, crc, compressed, uncompressed, local, local + 30 + name + extra))
  }

  /** `inflate` stands for the DEFLATE decoder, bounded by MAX_UNCOMPRESSED. */
  function ExtractFirstFile(zip: Bytes, inflate: Bytes -> Result<Bytes>): (r: Result<Bytes>) {
    var e :- Locate(zip);
    if e.start + e.compressed > |zip| then Err(TruncatedData) else
    var data := zip[e.start..e.start + e.compressed];
    var out :- if e.compression == METHOD_STORED then Ok(data)
               else if e.compression == METHOD_DEFLATE then inflate(data)
               else Err(UnsupportedMethod);
    if |out| != e.uncompressed then Err(WrongSize)
    else if Checksum(out) != e.crc then Err(BadChecksum)
    else Ok(out)
  }

  // ------------------------------------------------- corruption is noticed

  ghost predicate AgreeOutside(a: Bytes, b: Bytes, lo: nat, hi: nat) {
    |a| == |b| && forall i | 0 <= i < |a| && !(lo <= i < hi) :: a[i] == b[i]
  }

  lemma SameReads(a: Bytes, b: Bytes, lo: nat, hi: nat, pos: nat, n: nat)
    requires AgreeOutside(a, b, lo, hi) && (pos + n <= lo || hi <= pos) && n <= 4
    ensures n >= 2 ==> U16At(a, pos) == U16At(b, pos)
    ensures n == 4 ==> U32At(a, pos) == U32At(b, pos) && WordAt(a, pos) == WordAt(b, pos)
  {
    if n == 4 && pos + 4 <= |a| {
      assert a[pos..pos + 4] == b[pos..pos + 4];
    }
  }

  lemma {:induction false} SameScan(a: Bytes, b: Bytes, lo: nat, hi: nat, pos: nat, low: nat)
    requires AgreeOutside(a, b, lo, hi) && low <= pos
    requires ScanBack(a, pos, low).Ok? && hi <= ScanBack(a, pos, low).value
    ensures ScanBack(b, pos, low) == ScanBack(a, pos, low)
    ensures ScanBack(a, pos, low).value <= pos
    decreases pos
  {
    if U32At(a, pos) == Ok(EOCD_MAGIC) {
      SameReads(a, b, lo, hi, pos, 4);
    } else {
      SameScan(a, b, lo, hi, pos - 1, low);
      SameReads(a, b, lo, hi, pos, 4);
    }
  }

  /** The bytes lie before the end record and miss the record of the first file. */
  predicate MissesRecords(e: Entry, lo: nat, hi: nat) { hi <= e.eocd && (e.central + 46 <= lo || hi <= e.central) }

  lemma SameEntry(a: Bytes, b: Bytes, lo: nat, hi: nat)
    requires Locate(a).Ok? && MissesRecords(Locate(a).value, lo, hi) && AgreeOutside(a, b, lo, hi)
    requires Locate(a).value.start <= lo <= hi <= Locate(a).value.start + Locate(a).value.compressed
    ensures Locate(b) == Locate(a)
  {
    hide U16At, U32At, WordAt, ScanBack;
    var e := Locate(a).value;
    var start := |a| - 22;
    SameScan(a, b, lo, hi, start, if start <= 0xffff then 0 else start - 0xffff);
    SameReads(a, b, lo, hi, e.eocd + 10, 2);
    SameReads(a, b, lo, hi, e.eocd + 16, 4);
    SameReads(a, b, lo, hi, e.central, 4);
    SameReads(a, b, lo, hi, e.central + 10, 2);
    SameReads(a, b, lo, hi, e.central + 16, 4);
    SameReads(a, b, lo, hi, e.central + 20, 4);
    SameReads(a, b, lo, hi, e.central + 24, 4);
    SameReads(a, b, lo, hi, e.central + 42, 4);
    SameReads(a, b, lo, hi, e.local, 4);
    SameReads(a, b, lo, hi, e.local + 26, 2);
    SameReads(a, b, lo, hi, e.local + 28, 2);
  }

  /** A stored file whose data is changed within any four consecutive bytes that are
      not also part of the directory is refused, whatever the rest of the archive
      holds. */
  lemma StoredCorruptionRefused(a: Bytes, b: Bytes, at: nat, n: nat, inflate: Bytes -> Result<Bytes>)
    requires ExtractFirstFile(a, inflate).Ok?
    requires Locate(a).value.compression == METHOD_STORED && MissesRecords(Locate(a).value, at, at + n)
    requires n <= 4 && a != b && AgreeOutside(a, b, at, at + n)
    requires Locate(a).value.start <= at && at + n <= Locate(a).value.start + Locate(a).value.compressed
    ensures ExtractFirstFile(b, inflate) == Err(BadChecksum)
  {
    hide Locate, Checksum, MissesRecords;
    var e := Locate(a).value;
    SameEntry(a, b, at, at + n);
    var end := e.start + e.compressed;
    var prefix, suffix := a[e.start..at], a[at + n..end];
    var v, w := a[at..at + n], b[at..at + n];
    WindowSplit(a, b, at, n, e.start, end);
    BurstChangesChecksum(prefix, v, w, suffix);
  }

  lemma WindowSplit(a: Bytes, b: Bytes, at: nat, n: nat, start: nat, end: nat)
    requires a != b && AgreeOutside(a, b, at, at + n) && start <= at && at + n <= end <= |a|
    ensures |b| == |a| && a[start..end] == a[start..at] + a[at..at + n] + a[at + n..end]
    ensures b[start..end] == a[start..at] + b[at..at + n] + a[at + n..end] && a[at..at + n] != b[at..at + n]
  {
    if a[at..at + n] == b[at..at + n] {
      forall i | 0 <= i < |a| ensures a[i] == b[i] {
        if at <= i < at + n { assert a[i] == a[at..at + n][i - at] == b[at..at + n][i - at]; }
      }
    }
  }

  // --------------------------------------------------- the stored writer

  function LeBytes16(n: nat): (r: Bytes)
    requires n < 0x1_0000
    ensures |r| == 2
  {
    [(n % 0x100) as bv8, (n / 0x100) as bv8]
  }

  function LeBytes32(n: nat): (r: Bytes)
    requires n < 0x1_0000_0000
    ensures |r| == 4
  {
    LeBytes16(n % 0x1_0000) + LeBytes16(n / 0x1_0000)
  }

  function LeBytesOf(w: Word): (r: Bytes)
    ensures |r| == 4
  {
    [Low(w), Low(Rest(w)), Low(Rest(Rest(w))), Low(Rest(Rest(Rest(w))))]
  }

  function Low(w: Word): bv8 { (w & 0xff) as bv8 }
  function Rest(w: Word): Word { w >> 8 }

  const NAME: Bytes := [0x74, 0x68, 0x65, 0x61, 0x74, 0x65, 0x72, 0x2e, 0x78, 0x6d, 0x6c]  // theater.xml
  const ZEROS4: Bytes := [0, 0, 0, 0]

  function LocalRecord(content: Bytes): (r: Bytes)
    requires |content| < 0x1_0000_0000
    ensures |r| == 41 + |content|
  {
    LeBytes32(LOCAL_MAGIC) + LeBytes16(20) + LeBytes16(0) + LeBytes16(0) + ZEROS4
    + LeBytesOf(Checksum(content)) + LeBytes32(|content|) + LeBytes32(|content|)
    + LeBytes16(|NAME|) + LeBytes16(0) + NAME + content
  }

  function CentralRecord(content: Bytes): (r: Bytes)
    requires |content| < 0x1_0000_0000
    ensures |r| == 61
  {
    LeBytes32(CENTRAL_MAGIC) + LeBytes16(20) + LeBytes16(20) + LeBytes16(0) + LeBytes16(0) + ZEROS4
    + LeBytesOf(Checksum(content)) + LeBytes32(|content|) + LeBytes32(|content|)
    + LeBytes16(|NAME|) + (ZEROS4 + ZEROS4 + ZEROS4) + ZEROS4 + LeBytes32(0) + NAME
  }

  function EndRecord(size: nat, offset: nat): (r: Bytes)
    requires size < 0x1_0000_0000 && offset < 0x1_0000_0000
    ensures |r| == 22
  {
    LeBytes32(EOCD_MAGIC) + ZEROS4 + LeBytes16(1) + LeBytes16(1) + LeBytes32(size) + LeBytes32(offset)
    + LeBytes16(0)
  }

  function BuildStoredZip(content: Bytes): (r: Bytes)
    requires |content| + 41 < 0x1_0000_0000
  {
    LocalRecord(content) + CentralRecord(content) + EndRecord(61, 41 + |content|)
  }

  lemma ReadsBack16(n: nat)
    requires n < 0x1_0000
    ensures Le16(LeBytes16(n)[0], LeBytes16(n)[1]) == n
  {
    var lo, hi := n % 0x100, n / 0x100;
    BytesAsNumbers.ReadsBack(lo);
    BytesAsNumbers.ReadsBack(hi);
    assert n == lo + 0x100 * hi;
  }

  lemma ReadsBack32(buf: Bytes, pos: nat, n: nat)
    requires n < 0x1_0000_0000 && pos + 4 <= |buf| && buf[pos..pos + 4] == LeBytes32(n)
    ensures U32At(buf, pos) == Ok(n)
  {
    ReadsBack16(n % 0x1_0000);
    ReadsBack16(n / 0x1_0000);
    var field := LeBytes32(n);
    assert forall k | 0 <= k < 4 :: buf[pos + k] == field[k] by {
      forall k | 0 <= k < 4 ensures buf[pos + k] == field[k] { assert buf[pos..pos + 4][k] == field[k]; }
    }
  }

  lemma LowByteSplit(w: Word)
    ensures Below(Low(w), Rest(w)) == w
  {
  }

  lemma NothingLeft(w: Word)
    ensures Rest(Rest(Rest(Rest(w)))) == 0
  {
  }

  lemma WordBytes(w: Word)
    ensures Packed(LeBytesOf(w)) == w
  {
    hide Below, Low, Rest;
    var r, w1, w2, w3 := LeBytesOf(w), Rest(w), Rest(Rest(w)), Rest(Rest(Rest(w)));
    NothingLeft(w);
    LowByteSplit(w3);
    assert Packed(r[3..]) == w3 by { assert r[3..][1..] == []; }
    LowByteSplit(w2);
    assert Packed(r[2..]) == w2 by { assert r[2..][1..] == r[3..]; }
    LowByteSplit(w1);
    assert Packed(r[1..]) == w1 by { assert r[1..][1..] == r[2..]; }
    LowByteSplit(w);
  }

  /** Reads inside one record of an archive see that record alone. */
  lemma ReadsInside(before: Bytes, record: Bytes, after: Bytes, pos: nat)
    ensures pos + 2 <= |record| ==> U16At(before + record + after, |before| + pos) == U16At(record, pos)
    ensures pos + 4 <= |record| ==> U32At(before + record + after, |before| + pos) == U32At(record, pos)
    ensures pos + 4 <= |record| ==> WordAt(before + record + after, |before| + pos) == WordAt(record, pos)
  {
    var zip := before + record + after;
    if pos + 4 <= |record| {
      assert zip[|before| + pos..|before| + pos + 4] == record[pos..pos + 4];
    }
  }

  lemma LocalFields(content: Bytes)
    requires |content| < 0x1_0000_0000
    ensures U32At(LocalRecord(content), 0) == Ok(LOCAL_MAGIC)
    ensures U16At(LocalRecord(content), 26) == Ok(|NAME|) && U16At(LocalRecord(content), 28) == Ok(0)
    ensures LocalRecord(content)[41..] == content
  {
    hide Checksum, LeBytesOf, LeBytes16, LeBytes32;
    var r := LocalRecord(content);
    assert r[0..4] == LeBytes32(LOCAL_MAGIC);
    ReadsBack32(r, 0, LOCAL_MAGIC);
    ReadsBack16(|NAME|);
    ReadsBack16(0);
    assert r[26] == LeBytes16(|NAME|)[0] && r[27] == LeBytes16(|NAME|)[1];
    assert r[28] == LeBytes16(0)[0] && r[29] == LeBytes16(0)[1];
  }

  lemma CentralFields(content: Bytes)
    requires |content| < 0x1_0000_0000
    ensures var r := CentralRecord(content);
            && U32At(r, 0) == Ok(CENTRAL_MAGIC) && U16At(r, 10) == Ok(METHOD_STORED)
            && WordAt(r, 16) == Ok(Checksum(content)) && U32At(r, 20) == Ok(|content|)
            && U32At(r, 24) == Ok(|content|) && U32At(r, 42) == Ok(0)
  {
    hide Checksum, LeBytesOf, LeBytes16, LeBytes32;
    var r := CentralRecord(content);
    assert r[0..4] == LeBytes32(CENTRAL_MAGIC);
    ReadsBack32(r, 0, CENTRAL_MAGIC);
    ReadsBack16(0);
    assert r[10] == LeBytes16(0)[0] && r[11] == LeBytes16(0)[1];
    assert r[16..20] == LeBytesOf(Checksum(content));
    WordBytes(Checksum(content));
    assert r[20..24] == LeBytes32(|content|) == r[24..28];
    ReadsBack32(r, 20, |content|);
    ReadsBack32(r, 24, |content|);
    assert r[42..46] == ZEROS4;
  }

  lemma EndFields(size: nat, offset: nat)
    requires size < 0x1_0000_0000 && offset < 0x1_0000_0000
    ensures var r := EndRecord(size, offset);
            U32At(r, 0) == Ok(EOCD_MAGIC) && U16At(r, 10) == Ok(1) && U32At(r, 16) == Ok(offset)
  {
    hide LeBytes16, LeBytes32;
    var r := EndRecord(size, offset);
    assert r[0..4] == LeBytes32(EOCD_MAGIC);
    ReadsBack32(r, 0, EOCD_MAGIC);
    ReadsBack16(1);
    assert r[10] == LeBytes16(1)[0] && r[11] == LeBytes16(1)[1];
    assert r[16..20] == LeBytes32(offset);
    ReadsBack32(r, 16, offset);
  }

  /** Every description the emulator can install is read back byte for byte. */
  lemma StoredRoundTrip(content: Bytes, inflate: Bytes -> Result<Bytes>)
    requires |content| <= MAX_UNCOMPRESSED
    ensures ExtractFirstFile(BuildStoredZip(content), inflate) == Ok(content)
  {
    hide Checksum, U16At, U32At, WordAt, LocalRecord, CentralRecord, EndRecord;
    var local, central := LocalRecord(content), CentralRecord(content);
    var end := EndRecord(61, 41 + |content|);
    var zip := BuildStoredZip(content);
    var dir, eocd := |local|, |local| + |central|;
    LocalFields(content);
    CentralFields(content);
    EndFields(61, 41 + |content|);
    assert zip == (local + central) + end + [];
    ReadsInside(local + central, end, [], 0);
    ReadsInside(local + central, end, [], 10);
    ReadsInside(local + central, end, [], 16);
    assert FindEocd(zip) == Ok(eocd);
    ReadsInside(local, central, end, 0);
    ReadsInside(local, central, end, 10);
    ReadsInside(local, central, end, 16);
    ReadsInside(local, central, end, 20);
    ReadsInside(local, central, end, 24);
    ReadsInside(local, central, end, 42);
    assert zip == [] + local + (central + end);
    ReadsInside([], local, central + end, 0);
    ReadsInside([], local, central + end, 26);
    ReadsInside([], local, central + end, 28);
    assert Locate(zip) == Ok(Entry(eocd, dir, METHOD_STORED, Checksum(content), |content|, |content|, 0, 41));
    assert zip[41..41 + |content|] == local[41..];
  }
}
