/** The metadata file of the Windows database: a header, fixed-size records, and a table of
    NUL-terminated strings that the records index. */
module MetadataFile {
  import opened Bytes

  /** A path as its directory and its last component. */
  datatype FilePath = FilePath(dir: Text, base: Text)

  type Int32 = x: int | -0x8000_0000 <= x < 0x8000_0000

  type Int64 = x: int | -0x8000_0000_0000_0000 <= x < 0x8000_0000_0000_0000

  type Uuid = s: seq<byte> | |s| == 16 witness seq(16, i => 0)

  datatype ReportDisk = ReportDisk(uuid: Uuid, path: FilePath, id: Text, creation: Int64, lastAttempt: Int64,
                                   attempts: Int32, state: Int32, uploaded: bool, requested: bool)

  datatype Record = Record(uuid: Uuid, pathIndex: nat, idIndex: nat, creation: Int64, lastAttempt: Int64,
                           attempts: Int32, state: Int32, attributes: byte)

  const HEADER_MAGIC: nat := 0x43504144  // 'CPAD'
  const VERSION: nat := 1
  const HEADER_SIZE: nat := 16
  const RECORD_SIZE: nat := 56

  // Fixed-width fields

  function Signed32(x: Int32): seq<byte> {
    ToBytes(x % TWO_32, 4)
  }

  function Signed64(x: Int64): seq<byte> {
    ToBytes(x % TWO_64, 8)
  }

  function ReadSigned32(s: seq<byte>): Int32 {
    var v := FromBytes(s) % TWO_32;
    if v < 0x8000_0000 then v else v - TWO_32
  }

  function ReadSigned64(s: seq<byte>): Int64 {
    var v := FromBytes(s) % TWO_64;
    if v < 0x8000_0000_0000_0000 then v else v - TWO_64
  }

  lemma SignedRoundTrip(x: Int32, y: Int64)
    ensures ReadSigned32(Signed32(x)) == x
    ensures ReadSigned64(Signed64(y)) == y
  {
    Pow256Values();
    hide ToBytes, FromBytes, Pow256;
    LittleEndianRoundTrip(x % TWO_32, 4);
    LittleEndianRoundTrip(y % TWO_64, 8);
  }

  function PrintRecord(r: Record): (s: seq<byte>)
    ensures |s| == RECORD_SIZE
  {
    r.uuid + ToBytes(r.pathIndex, 4) + ToBytes(r.idIndex, 4) + Signed64(r.creation) + Signed64(r.lastAttempt)
    + Signed32(r.attempts) + Signed32(r.state) + [r.attributes] + [0, 0, 0, 0, 0, 0, 0]
  }

  function ParseRecord(s: seq<byte>): Record
    requires |s| == RECORD_SIZE
  {
    Record(s[..16], FromBytes(s[16..20]), FromBytes(s[20..24]), ReadSigned64(s[24..32]), ReadSigned64(s[32..40]),
           ReadSigned32(s[40..44]), ReadSigned32(s[44..48]), s[48])
  }

  lemma RecordRoundTrip(r: Record)
    requires r.pathIndex < TWO_32 && r.idIndex < TWO_32
    ensures ParseRecord(PrintRecord(r)) == r
  {
    var s := PrintRecord(r);
    assert s[..16] == r.uuid && s[48] == r.attributes;
    assert s[16..20] == ToBytes(r.pathIndex, 4) && s[20..24] == ToBytes(r.idIndex, 4);
    assert s[24..32] == Signed64(r.creation) && s[32..40] == Signed64(r.lastAttempt);
    assert s[40..44] == Signed32(r.attempts) && s[44..48] == Signed32(r.state);
    hide PrintRecord, Signed32, Signed64, ReadSigned32, ReadSigned64;
    Pow256Values();
    LittleEndianRoundTrip(r.pathIndex, 4);
    LittleEndianRoundTrip(r.idIndex, 4);
    SignedRoundTrip(r.attempts, r.creation);
    SignedRoundTrip(r.state, r.lastAttempt);
  }

  function Header(n: nat): (s: seq<byte>)
    ensures |s| == HEADER_SIZE
  {
    ToBytes(HEADER_MAGIC, 4) + ToBytes(VERSION, 4) + ToBytes(n, 4) + ToBytes(0, 4)
  }

  predicate GoodHeader(b: seq<byte>)
    requires |b| >= HEADER_SIZE
  {
    FromBytes(b[..4]) == HEADER_MAGIC && FromBytes(b[4..8]) == VERSION
  }

  /** The bytes that a file begins with: CPAD, backwards, and the version. */
  const PREAMBLE: seq<byte> := [0x44, 0x41, 0x50, 0x43, 1, 0, 0, 0]

  lemma PreambleBytes()
    ensures ToBytes(HEADER_MAGIC, 4) + ToBytes(VERSION, 4) == PREAMBLE
  {
    FourBytes(0x44, 0x41, 0x50, 0x43);
    FourBytes(1, 0, 0, 0);
  }

  lemma GoodHeaderExactly(b: seq<byte>)
    requires |b| >= HEADER_SIZE
    ensures GoodHeader(b) <==> b[..8] == PREAMBLE
  {
    hide ToBytes, FromBytes;
    Pow256Values();
    PreambleBytes();
    FromBytesExactly(b[..4], HEADER_MAGIC);
    FromBytesExactly(b[4..8], VERSION);
    assert b[..8] == b[..4] + b[4..8];
    assert PREAMBLE[..4] == ToBytes(HEADER_MAGIC, 4) && PREAMBLE[4..] == ToBytes(VERSION, 4);
  }

  lemma HeaderReadsBack(n: nat)
    requires n < TWO_32
    ensures GoodHeader(Header(n)) && FromBytes(Header(n)[8..12]) == n
  {
    var s := Header(n);
    assert s[..4] == ToBytes(HEADER_MAGIC, 4) && s[4..8] == ToBytes(VERSION, 4) && s[8..12] == ToBytes(n, 4);
    hide Header;
    Pow256Values();
    LittleEndianRoundTrip(HEADER_MAGIC, 4);
    LittleEndianRoundTrip(VERSION, 4);
    LittleEndianRoundTrip(n, 4);
  }

  // The string table

  predicate NulFree(s: Text) {
    forall i :: 0 <= i < |s| ==> s[i] != 0
  }

  /** The bytes up to the first NUL. */
  function CString(s: Text): (r: Text)
    ensures NulFree(r) && r <= s
    ensures r == s <==> NulFree(s)
    ensures |r| < |s| ==> s[|r|] == 0
  {
    if s == [] || s[0] == 0 then [] else [s[0]] + CString(s[1..])
  }

  lemma CStringStops(s: Text, rest: Text)
    ensures CString(s + [0] + rest) == CString(s)
  {
    var t := s + [0] + rest;
    var r := CString(s);
    assert forall i :: 0 <= i < |r| ==> t[i] == r[i] && t[i] != 0;
    assert t[|r|] == 0;
    CStringUnique(t, |r|);
    assert t[..|r|] == r;
  }

  lemma CStringUnique(t: Text, n: nat)
    requires n < |t| && t[n] == 0 && forall i :: 0 <= i < n ==> t[i] != 0
    ensures CString(t) == t[..n]
  {
    if n > 0 {
      CStringUnique(t[1..], n - 1);
    }
  }

  /** The strings of one report, as they are appended to the table. */
  function Strings(r: ReportDisk): Text {
    r.path.base + [0] + r.id + [0]
  }

  function Table(reports: seq<ReportDisk>): Text {
    if reports == [] then [] else Table(reports[..|reports| - 1]) + Strings(reports[|reports| - 1])
  }

  function Attributes(r: ReportDisk): byte {
    (if r.uploaded then 1 else 0) + if r.requested then 2 else 0
  }

  function MakeRecord(r: ReportDisk, tableSize: nat): Record {
    Record(r.uuid, tableSize, tableSize + |r.path.base| + 1, r.creation, r.lastAttempt, r.attempts, r.state, Attributes(r))
  }

  function Records(reports: seq<ReportDisk>): (records: seq<Record>)
    ensures |records| == |reports|
  {
    seq(|reports|, (i: nat) requires i < |reports| => MakeRecord(reports[i], |Table(reports[..i])|))
  }

  lemma RecordsAppend(reports: seq<ReportDisk>, i: nat)
    requires i < |reports|
    ensures Records(reports[..i + 1]) == Records(reports[..i]) + [MakeRecord(reports[i], |Table(reports[..i])|)]
  {
    hide Table, MakeRecord;
    assert forall j :: 0 <= j <= i ==> reports[..i + 1][..j] == reports[..j];
    assert forall j :: 0 <= j <= i ==> reports[..i][..j] == reports[..j];
  }

  function PrintRecords(records: seq<Record>): (s: seq<byte>)
    ensures |s| == RECORD_SIZE * |records|
    ensures forall i :: 0 <= i < |records| ==> s[RECORD_SIZE * i..RECORD_SIZE * (i + 1)] == PrintRecord(records[i])
  {
    if records == [] then []
    else
      var before := PrintRecords(records[..|records| - 1]);
      var s := before + PrintRecord(records[|records| - 1]);
      assert forall i :: 0 <= i < |records| - 1 ==>
        s[RECORD_SIZE * i..RECORD_SIZE * (i + 1)] == before[RECORD_SIZE * i..RECORD_SIZE * (i + 1)];
      s
  }

  /** The report that a record stands for. */
  function FromRecord(r: Record, dir: Text, table: Text): ReportDisk
    requires r.pathIndex < |table| && r.idIndex < |table|
  {
    ReportDisk(r.uuid, FilePath(dir, CString(table[r.pathIndex..])), CString(table[r.idIndex..]), r.creation,
               r.lastAttempt, r.attempts, r.state, r.attributes % 2 == 1, r.attributes / 2 % 2 == 1)
  }

  // Whole files

  predicate InDir(reports: seq<ReportDisk>, dir: Text) {
    forall i :: 0 <= i < |reports| ==> reports[i].path.dir == dir
  }

  /** The number of records and all string offsets are 32-bit numbers; the program stops otherwise. */
  predicate Fits(reports: seq<ReportDisk>) {
    |reports| < TWO_32 && (reports != [] ==> Records(reports)[|reports| - 1].idIndex < TWO_32)
  }

  /** The file after a write: the header alone if there are no reports or a path is elsewhere. */
  function PrintFile(reports: seq<ReportDisk>, dir: Text): seq<byte> {
    Header(|reports|) + if reports == [] || !InDir(reports, dir) then [] else PrintRecords(Records(reports)) + Table(reports)
  }

  /** The number of records that a file announces, if its header is in order. */
  function Announced(b: seq<byte>): Option<nat> {
    if |b| < HEADER_SIZE || !GoodHeader(b) then None
    else
      var n := FromBytes(b[8..12]);
      if n * RECORD_SIZE >= TWO_32 then None else Some(n)
  }

  function RecordAt(b: seq<byte>, i: nat): Record
    requires HEADER_SIZE + RECORD_SIZE * (i + 1) <= |b|
  {
    ParseRecord(b[HEADER_SIZE + RECORD_SIZE * i..HEADER_SIZE + RECORD_SIZE * (i + 1)])
  }

  predicate GoodTable(table: Text) {
    table != [] && table[|table| - 1] == 0
  }

  /** Reads the first n records; fails if one has an index outside of the table. */
  function ParseReports(b: seq<byte>, n: nat, dir: Text, table: Text): (r: Option<seq<ReportDisk>>)
    requires HEADER_SIZE + RECORD_SIZE * n <= |b|
  {
    if n == 0 then Some([])
    else
      match ParseReports(b, n - 1, dir, table)
      case None => None
      case Some(before) =>
        var r := RecordAt(b, n - 1);
        if r.pathIndex >= |table| || r.idIndex >= |table| then None else Some(before + [FromRecord(r, dir, table)])
  }

  /** The reports in a file; none if the file is not in order. */
  function ParseFile(b: seq<byte>, dir: Text): Option<seq<ReportDisk>> {
    match Announced(b)
    case None => None
    case Some(n) =>
      if n == 0 then Some([])
      else if |b| < HEADER_SIZE + RECORD_SIZE * n then None
      else
        var table := b[HEADER_SIZE + RECORD_SIZE * n..];
        if !GoodTable(table) then None else ParseReports(b, n, dir, table)
  }

  /** What the database holds after reading a file: nothing if the file is not in order. */
  function ReadBack(b: seq<byte>, dir: Text): seq<ReportDisk> {
    match ParseFile(b, dir)
    case None => []
    case Some(reports) => reports
  }

  /** A file that does not begin as it should reads as empty. */
  lemma OtherFilesReadEmpty(b: seq<byte>, dir: Text)
    requires |b| < HEADER_SIZE || b[..8] != PREAMBLE
    ensures ReadBack(b, dir) == []
  {
    if |b| >= HEADER_SIZE {
      GoodHeaderExactly(b);
    }
  }

  /** The layout of a file with one report: all numbers have their least significant byte first, the
      strings are indexed in the order path, identifier, and the attributes are uploaded, requested. */
  lemma FileLayout(r: ReportDisk)
    requires r.path.base == [0x61] && r.id == [0x62] && r.creation == 3 && r.lastAttempt == 4 && r.attempts == 5
    requires r.state == 2
    ensures PrintFile([r], r.path.dir)
         == PREAMBLE + [1, 0, 0, 0] + [0, 0, 0, 0]
            + (r.uuid + [0, 0, 0, 0] + [2, 0, 0, 0] + [3, 0, 0, 0, 0, 0, 0, 0] + [4, 0, 0, 0, 0, 0, 0, 0]
               + [5, 0, 0, 0] + [2, 0, 0, 0] + [(if r.uploaded then 1 else 0) + if r.requested then 2 else 0]
               + [0, 0, 0, 0, 0, 0, 0])
            + [0x61, 0, 0x62, 0]
  {
    OneRecordLayout(r);
    HeaderLayout();
    assert [r][..0] == [] && Table([r]) == Table([r][..0]) + Strings(r) == [0x61, 0, 0x62, 0];
    assert Records([r]) == [MakeRecord(r, 0)];
    assert [MakeRecord(r, 0)][..0] == [];
    assert PrintRecords([MakeRecord(r, 0)]) == PrintRecords([MakeRecord(r, 0)][..0]) + PrintRecord(MakeRecord(r, 0));
    hide Header, PrintRecord, PrintRecords, Records, Table, MakeRecord;
  }

  lemma HeaderLayout()
    ensures Header(1) == PREAMBLE + [1, 0, 0, 0] + [0, 0, 0, 0]
  {
    PreambleBytes();
    FourBytes(1, 0, 0, 0);
    FourBytes(0, 0, 0, 0);
  }

  lemma SmallEightBytes(a: byte)
    ensures ToBytes(a, 8) == [a, 0, 0, 0, 0, 0, 0, 0]
  {
    assert ToBytes(0, 1) == [0] && ToBytes(0, 2) == [0, 0] && ToBytes(0, 3) == [0, 0, 0];
    assert ToBytes(0, 5) == [0, 0, 0, 0, 0];
    assert ToBytes(0, 7) == [0, 0, 0, 0, 0, 0, 0];
  }

  lemma OneRecordLayout(r: ReportDisk)
    requires r.path.base == [0x61] && r.id == [0x62] && r.creation == 3 && r.lastAttempt == 4 && r.attempts == 5
    requires r.state == 2
    ensures PrintRecord(MakeRecord(r, 0))
         == r.uuid + [0, 0, 0, 0] + [2, 0, 0, 0] + [3, 0, 0, 0, 0, 0, 0, 0] + [4, 0, 0, 0, 0, 0, 0, 0]
            + [5, 0, 0, 0] + [2, 0, 0, 0] + [(if r.uploaded then 1 else 0) + if r.requested then 2 else 0]
            + [0, 0, 0, 0, 0, 0, 0]
  {
    hide ToBytes;
    FourBytes(0, 0, 0, 0);
    FourBytes(2, 0, 0, 0);
    FourBytes(5, 0, 0, 0);
    SmallEightBytes(3);
    SmallEightBytes(4);
  }

  // Reading what was written, whole or torn

  /** The strings of report i lie in the table where its record says. */
  lemma {:induction false} TableAt(reports: seq<ReportDisk>, i: nat) returns (rest: Text)
    requires i < |reports|
    ensures Table(reports) == Table(reports[..i]) + Strings(reports[i]) + rest
  {
    if i == |reports| - 1 {
      rest := [];
    } else {
      var before := reports[..|reports| - 1];
      rest := TableAt(before, i);
      assert before[..i] == reports[..i];
      rest := rest + Strings(reports[|reports| - 1]);
    }
  }

  /** What reading makes of a report: its strings end at their first NUL. */
  function Truncated(r: ReportDisk): ReportDisk {
    r.(path := FilePath(r.path.dir, CString(r.path.base)), id := CString(r.id))
  }

  /** The records index the table inside of it, and later records index it further behind. */
  lemma {:induction false} IndicesInTable(reports: seq<ReportDisk>, i: nat)
    requires i < |reports|
    ensures Records(reports)[i].pathIndex < Records(reports)[i].idIndex < |Table(reports)|
    ensures Records(reports)[i].idIndex <= Records(reports)[|reports| - 1].idIndex
  {
    var rest := TableAt(reports, i);
    if i < |reports| - 1 {
      var before := reports[..|reports| - 1];
      var rest' := TableAt(before, i);
      assert before[..i] == reports[..i];
    }
  }

  lemma {:induction false} RecordReadsBack(reports: seq<ReportDisk>, i: nat)
    requires i < |reports|
    ensures Records(reports)[i].pathIndex < |Table(reports)| && Records(reports)[i].idIndex < |Table(reports)|
    ensures FromRecord(Records(reports)[i], reports[i].path.dir, Table(reports)) == Truncated(reports[i])
  {
    var k, t, x := |Table(reports[..i])|, Table(reports), reports[i];
    assert Records(reports)[i] == MakeRecord(x, k);
    IndicesInTable(reports, i);
    var rest := TableAt(reports, i);
    hide CString, Table, Records;
    StringsReadBack(x, k, t, rest);
  }

  lemma SkipString(t: Text, k: nat, s: Text, rest: Text)
    requires k <= |t| && t[k..] == s + [0] + rest
    ensures k + |s| < |t| && t[k + |s| + 1..] == rest
    ensures CString(t[k..]) == CString(s)
  {
    hide CString;
    CStringStops(s, rest);
    assert t[k + |s| + 1..] == t[k..][|s| + 1..];
  }

  lemma SkipBoth(t: Text, k: nat, a: Text, b: Text, rest: Text)
    requires k <= |t| && t[k..] == a + [0] + b + [0] + rest
    ensures k + |a| + 1 < |t| && CString(t[k..]) == CString(a) && CString(t[k + |a| + 1..]) == CString(b)
  {
    hide CString;
    assert a + [0] + b + [0] + rest == a + [0] + (b + [0] + rest);
    SkipString(t, k, a, b + [0] + rest);
    SkipString(t, k + |a| + 1, b, rest);
  }

  lemma StringsReadBack(x: ReportDisk, k: nat, t: Text, rest: Text)
    requires k <= |t| && t[k..] == Strings(x) + rest
    ensures k < |t| && k + |x.path.base| + 1 < |t|
    ensures FromRecord(MakeRecord(x, k), x.path.dir, t) == Truncated(x)
  {
    hide CString, Attributes;
    SkipBoth(t, k, x.path.base, x.id, rest);
    AttributesReadBack(x);
  }

  lemma AttributesReadBack(r: ReportDisk)
    ensures Attributes(r) % 2 == 1 <==> r.uploaded
    ensures Attributes(r) / 2 % 2 == 1 <==> r.requested
  {
  }

  lemma HeaderKept(b: seq<byte>, n: nat)
    requires n < TWO_32 && n * RECORD_SIZE < TWO_32 && |b| >= HEADER_SIZE && b[..HEADER_SIZE] == Header(n)
    ensures Announced(b) == Some(n)
  {
    HeaderReadsBack(n);
    hide Header, FromBytes;
    var h := b[..HEADER_SIZE];
    assert b[..4] == h[..4] && b[4..8] == h[4..8] && b[8..12] == h[8..12];
  }

  /** Cut off behind the records, a written file has its header, its records and a part of its table. */
  lemma {:induction false} PrefixLayout(reports: seq<ReportDisk>, dir: Text, m: nat) returns (p: seq<byte>, t: nat)
    requires reports != [] && InDir(reports, dir) && Fits(reports) && |reports| * RECORD_SIZE < TWO_32
    requires HEADER_SIZE + RECORD_SIZE * |reports| <= m <= |PrintFile(reports, dir)|
    ensures p == PrintFile(reports, dir)[..m] && t == m - HEADER_SIZE - RECORD_SIZE * |reports| <= |Table(reports)|
    ensures Announced(p) == Some(|reports|)
    ensures p[HEADER_SIZE + RECORD_SIZE * |reports|..] == Table(reports)[..t]
    ensures forall i :: 0 <= i < |reports| ==> RecordAt(p, i) == Records(reports)[i]
  {
    hide Header, PrintRecords, Records, Table, PrintFile, ParseRecord, PrintRecord, Announced, Fits, InDir;
    var n, h, rs := |reports|, Header(|reports|), PrintRecords(Records(reports));
    p, t := PrintFile(reports, dir)[..m], m - HEADER_SIZE - RECORD_SIZE * |reports|;
    FileParts(reports, dir);
    Cut(h, rs, Table(reports), p, t);
    HeaderKept(p, n);
    RecordsKept(reports, h, p);
  }

  lemma FileParts(reports: seq<ReportDisk>, dir: Text)
    requires reports != [] && InDir(reports, dir) && Fits(reports)
    ensures PrintFile(reports, dir) == Header(|reports|) + (PrintRecords(Records(reports)) + Table(reports))
    ensures |reports| < TWO_32 && Records(reports)[|reports| - 1].idIndex < TWO_32
  {
    hide Header, PrintRecords, Records, Table;
  }

  lemma RecordsKept(reports: seq<ReportDisk>, h: seq<byte>, p: seq<byte>)
    requires reports != [] && Records(reports)[|reports| - 1].idIndex < TWO_32
    requires |h| == HEADER_SIZE && h + PrintRecords(Records(reports)) <= p
    ensures forall i :: 0 <= i < |reports| ==> RecordAt(p, i) == Records(reports)[i]
  {
    hide PrintRecords, Records, Table, ParseRecord, PrintRecord;
    forall i | 0 <= i < |reports|
      ensures RecordAt(p, i) == Records(reports)[i]
    {
      CutRecord(h, PrintRecords(Records(reports)), p, i);
      IndicesInTable(reports, i);
      RecordRoundTrip(Records(reports)[i]);
    }
  }

  lemma Cut(h: seq<byte>, rs: seq<byte>, table: Text, p: seq<byte>, t: nat)
    requires t <= |table| && p == (h + (rs + table))[..|h| + |rs| + t]
    ensures p == h + rs + table[..t]
    ensures p[..|h|] == h && p[|h| + |rs|..] == table[..t]
  {
    assert h + (rs + table) == h + rs + table;
  }

  lemma CutRecord(h: seq<byte>, rs: seq<byte>, p: seq<byte>, i: nat)
    requires |h| == HEADER_SIZE && RECORD_SIZE * (i + 1) <= |rs| && h + rs <= p
    ensures p[HEADER_SIZE + RECORD_SIZE * i..HEADER_SIZE + RECORD_SIZE * (i + 1)] == rs[RECORD_SIZE * i..RECORD_SIZE * (i + 1)]
  {
    var from, to := HEADER_SIZE + RECORD_SIZE * i, HEADER_SIZE + RECORD_SIZE * (i + 1);
    assert p[from..to] == (h + rs)[from..to];
  }

  predicate IndexesInside(records: seq<Record>, table: Text) {
    forall i :: 0 <= i < |records| ==> records[i].pathIndex < |table| && records[i].idIndex < |table|
  }

  /** Parsing succeeds exactly if every record indexes the table inside of it. */
  lemma {:induction false} ParseReportsOf(b: seq<byte>, records: seq<Record>, dir: Text, table: Text)
      returns (r: Option<seq<ReportDisk>>)
    requires HEADER_SIZE + RECORD_SIZE * |records| <= |b|
    requires forall i :: 0 <= i < |records| ==> RecordAt(b, i) == records[i]
    ensures r == ParseReports(b, |records|, dir, table)
    ensures r.Some? <==> IndexesInside(records, table)
    ensures r.Some? ==> |r.value| == |records|
    ensures r.Some? ==> forall i :: 0 <= i < |records| ==> r.value[i] == FromRecord(records[i], dir, table)
    decreases |records|
  {
    hide RecordAt, FromRecord;
    r := Some([]);
    if records != [] {
      var n := |records| - 1;
      var before := ParseReportsOf(b, records[..n], dir, table);
      r := ParseReports(b, |records|, dir, table);
      if IndexesInside(records, table) {
        assert IndexesInside(records[..n], table);
      } else if IndexesInside(records[..n], table) {
        assert records[n].pathIndex >= |table| || records[n].idIndex >= |table|;
      }
    }
  }

  /** A file that announces more reports than it holds reads as empty. */
  lemma ShortFileReadsEmpty(b: seq<byte>, dir: Text, n: nat)
    requires |b| >= HEADER_SIZE ==> b[..HEADER_SIZE] == Header(n)
    requires 0 < n < TWO_32 && |b| < HEADER_SIZE + RECORD_SIZE * n
    ensures ReadBack(b, dir) == []
  {
    if |b| >= HEADER_SIZE && n * RECORD_SIZE < TWO_32 {
      HeaderKept(b, n);
    } else if |b| >= HEADER_SIZE {
      HugeCountRefused(b, n);
    }
  }

  lemma HugeCountRefused(b: seq<byte>, n: nat)
    requires n < TWO_32 <= n * RECORD_SIZE && |b| >= HEADER_SIZE && b[..HEADER_SIZE] == Header(n)
    ensures Announced(b) == None
  {
    HeaderReadsBack(n);
    hide Header, FromBytes;
    var h := b[..HEADER_SIZE];
    assert b[..4] == h[..4] && b[4..8] == h[4..8] && b[8..12] == h[8..12];
  }

  /** A written file reads back with every string cut at its first NUL. */
  lemma WholeFileReadsBack(reports: seq<ReportDisk>, dir: Text)
    requires reports != [] && InDir(reports, dir) && Fits(reports) && |reports| * RECORD_SIZE < TWO_32
    ensures |ReadBack(PrintFile(reports, dir), dir)| == |reports|
    ensures forall i :: 0 <= i < |reports| ==> ReadBack(PrintFile(reports, dir), dir)[i] == Truncated(reports[i])
  {
    hide Header, Records, Table, ParseReports, FromRecord, Truncated, RecordAt, Announced, PrintRecords;
    var b, n := PrintFile(reports, dir), |reports|;
    var p, t := PrefixLayout(reports, dir, |b|);
    assert p == b && Table(reports)[..t] == Table(reports);
    EndsWithNul(reports);
    var r := ParseReportsOf(b, Records(reports), dir, Table(reports));
    forall i | 0 <= i < n
      ensures Records(reports)[i].pathIndex < |Table(reports)| && Records(reports)[i].idIndex < |Table(reports)|
      ensures FromRecord(Records(reports)[i], dir, Table(reports)) == Truncated(reports[i])
    {
      RecordReadsBack(reports, i);
    }
  }

  lemma EndsWithNul(reports: seq<ReportDisk>)
    requires reports != []
    ensures GoodTable(Table(reports))
  {
  }

  predicate AllNulFree(reports: seq<ReportDisk>) {
    forall i :: 0 <= i < |reports| ==> NulFree(reports[i].path.base) && NulFree(reports[i].id)
  }

  /** Reading restores exactly what was written, in order, if and only if all paths are in the
      directory, no string has a NUL, and the size of the records is a 32-bit number. */
  lemma RoundTripExactly(reports: seq<ReportDisk>, dir: Text)
    requires Fits(reports)
    ensures ReadBack(PrintFile(reports, dir), dir) == reports <==>
            reports == [] || (InDir(reports, dir) && AllNulFree(reports) && |reports| * RECORD_SIZE < TWO_32)
  {
    hide Header, Table, Records, CString, ParseReports;
    var b := PrintFile(reports, dir);
    assert b[..HEADER_SIZE] == Header(|reports|);
    if reports == [] {
      HeaderKept(b, 0);
    } else if |reports| * RECORD_SIZE >= TWO_32 {
      HugeCountRefused(b, |reports|);
    } else if !InDir(reports, dir) {
      ShortFileReadsEmpty(b, dir, |reports|);
    } else {
      WholeFileReadsBack(reports, dir);
      assert forall i :: 0 <= i < |reports| ==>
        (Truncated(reports[i]) == reports[i] <==> NulFree(reports[i].path.base) && NulFree(reports[i].id));
    }
  }

  /** The table ends with the last report's identifier and its NUL. */
  lemma {:induction false} LastString(reports: seq<ReportDisk>) returns (last: nat)
    requires reports != []
    ensures last == Records(reports)[|reports| - 1].idIndex <= |Table(reports)|
    ensures Table(reports)[last..] == reports[|reports| - 1].id + [0]
  {
    var n := |reports| - 1;
    var before, r := Table(reports[..n]), reports[n];
    last := |before| + |r.path.base| + 1;
    assert Records(reports)[n] == MakeRecord(r, |before|);
    assert Table(reports) == before + Strings(r);
    hide Table;
    assert before + Strings(r) == before + r.path.base + [0] + (r.id + [0]);
  }

  /** A torn file whose table is cut inside or before the last string reads as empty. */
  lemma TornTableReadsEmpty(reports: seq<ReportDisk>, dir: Text, m: nat)
    requires reports != [] && InDir(reports, dir) && Fits(reports) && |reports| * RECORD_SIZE < TWO_32
    requires HEADER_SIZE + RECORD_SIZE * |reports| <= m < |PrintFile(reports, dir)|
    requires NulFree(reports[|reports| - 1].id)
    ensures ReadBack(PrintFile(reports, dir)[..m], dir) == []
  {
    hide Header, Records, Table, ParseReports, FromRecord, RecordAt, Announced, PrintRecords, PrintFile, Fits;
    var p, t := PrefixLayout(reports, dir, m);
    assert t < |Table(reports)| by { FileLength(reports, dir); }
    var table := Table(reports);
    var last := LastString(reports);
    if GoodTable(table[..t]) {
      assert t <= last;
      var r := ParseReportsOf(p, Records(reports), dir, table[..t]);
    }
  }

  lemma FileLength(reports: seq<ReportDisk>, dir: Text)
    requires reports != [] && InDir(reports, dir)
    ensures |PrintFile(reports, dir)| == HEADER_SIZE + RECORD_SIZE * |reports| + |Table(reports)|
  {
  }

  /** A NUL inside of the last string lets a torn file pass: all reports are read, one cut short. */
  lemma TornTableReadsReports(reports: seq<ReportDisk>, dir: Text) returns (m: nat)
    requires reports != [] && InDir(reports, dir) && Fits(reports) && |reports| * RECORD_SIZE < TWO_32
    requires !NulFree(reports[|reports| - 1].id)
    ensures m < |PrintFile(reports, dir)| && ReadBack(PrintFile(reports, dir)[..m], dir) != []
  {
    hide Header, Records, Table, ParseReports, FromRecord, RecordAt, Announced, PrintRecords, PrintFile, Fits;
    var table, id := Table(reports), reports[|reports| - 1].id;
    var last := LastString(reports);
    var k :| 0 <= k < |id| && id[k] == 0;
    FileLength(reports, dir);
    m := HEADER_SIZE + RECORD_SIZE * |reports| + last + k + 1;
    var p, t := PrefixLayout(reports, dir, m);
    assert table[..t][t - 1] == table[last..][k] == 0;
    var r := ParseReportsOf(p, Records(reports), dir, table[..t]);
    forall i | 0 <= i < |reports|
      ensures Records(reports)[i].pathIndex < t && Records(reports)[i].idIndex < t
    {
      IndicesInTable(reports, i);
    }
  }

  /** Every torn write of one or more reports reads as an empty database, never as a part of the
      reports, if and only if the last string written has no NUL. */
  lemma TornWritesReadEmptyExactly(reports: seq<ReportDisk>, dir: Text)
    requires reports != [] && InDir(reports, dir) && Fits(reports) && |reports| * RECORD_SIZE < TWO_32
    ensures NulFree(reports[|reports| - 1].id) <==>
            forall m: nat :: m < |PrintFile(reports, dir)| ==> ReadBack(PrintFile(reports, dir)[..m], dir) == []
  {
    hide Header, Records, Table, ReadBack, PrintRecords;
    if NulFree(reports[|reports| - 1].id) {
      forall m: nat | m < |PrintFile(reports, dir)|
        ensures ReadBack(PrintFile(reports, dir)[..m], dir) == []
      {
        var p := PrintFile(reports, dir)[..m];
        if m < HEADER_SIZE + RECORD_SIZE * |reports| {
          assert m >= HEADER_SIZE ==> p[..HEADER_SIZE] == Header(|reports|);
          ShortFileReadsEmpty(p, dir, |reports|);
        } else {
          TornTableReadsEmpty(reports, dir, m);
        }
      }
    } else {
      var m := TornTableReadsReports(reports, dir);
    }
  }

  /** The records of the database while a call has them, over the open file. */
  class Metadata {
    const reportDir: Text
    var file: seq<byte>
    var reports: seq<ReportDisk>
    var dirty: bool

    constructor (file: seq<byte>, reportDir: Text)
      ensures this.file == file && this.reportDir == reportDir && reports == [] && !dirty
    {
      this.file, this.reportDir := file, reportDir;
      reports, dirty := [], false;
    }

    /** Replaces the reports by those in the file; leaves them if the file is not in order. */
    method Read()
      modifies this`reports
      ensures reports == match ParseFile(file, reportDir) case None => old(reports) case Some(found) => found
    {
      hide RecordAt, FromRecord, GoodHeader, FromBytes;
      if |file| < HEADER_SIZE || !GoodHeader(file) {
        return;
      }
      var n := FromBytes(file[8..12]);
      if n * RECORD_SIZE >= TWO_32 {
        return;
      }
      var found: seq<ReportDisk> := [];
      if n > 0 {
        if |file| < HEADER_SIZE + RECORD_SIZE * n {
          return;
        }
        var table := file[HEADER_SIZE + RECORD_SIZE * n..];
        if table == [] || table[|table| - 1] != 0 {
          return;
        }
        for i := 0 to n
          invariant ParseReports(file, i, reportDir, table) == Some(found)
        {
          var record := RecordAt(file, i);
          if record.pathIndex >= |table| || record.idIndex >= |table| {
            NoneStays(file, i + 1, n, reportDir, table);
            return;
          }
          found := found + [FromRecord(record, reportDir, table)];
        }
      }
      reports := found;
    }

    /** Truncates the file and writes the header; then, unless there are no reports or a path is
        elsewhere, the records and the strings. */
    method Write()
      requires Fits(reports)
      modifies this`file
      ensures file == PrintFile(reports, reportDir)
    {
      hide Header, PrintRecords, Records, Table, InDir;
      file := Header(|reports|);
      assert file + [] == file;
      if |reports| == 0 {
        return;
      }
      var ok, records, table := BuildRecords(reports, reportDir);
      if !ok {
        return;
      }
      assert file + PrintRecords(records) + table == file + (PrintRecords(records) + table);
      file := file + PrintRecords(records);
      file := file + table;
    }

    /** What the next call finds, after this one wrote the reports on its way out. */
    method WriteThenRead(next: Metadata)
      requires Fits(reports) && next.reportDir == reportDir && next.reports == [] && next != this
      modifies this`file, next`file, next`reports
      ensures next.reports == reports <==>
              reports == [] || (InDir(reports, reportDir) && AllNulFree(reports) && |reports| * RECORD_SIZE < TWO_32)
    {
      Write();
      next.file := file;
      next.Read();
      RoundTripExactly(reports, reportDir);
    }
  }

  /** Builds the records and the string table; gives up at the first path that is elsewhere. */
  method BuildRecords(reports: seq<ReportDisk>, dir: Text) returns (ok: bool, records: seq<Record>, table: Text)
    ensures ok <==> InDir(reports, dir)
    ensures ok ==> records == Records(reports) && table == Table(reports)
  {
    hide Records;
    table, records := [], [];
    for i := 0 to |reports|
      invariant InDir(reports[..i], dir)
      invariant table == Table(reports[..i]) && records == Records(reports[..i])
    {
      var r := reports[i];
      if r.path.dir != dir {
        return false, records, table;
      }
      RecordsAppend(reports, i);
      TableAppend(reports, i);
      var pathIndex, idIndex;
      pathIndex, table := AddStringToTable(table, r.path.base);
      idIndex, table := AddStringToTable(table, r.id);
      records := records + [Record(r.uuid, pathIndex, idIndex, r.creation, r.lastAttempt, r.attempts, r.state, Attributes(r))];
    }
    assert reports[..|reports|] == reports;
    ok := true;
  }

  lemma {:induction false} TableAppend(reports: seq<ReportDisk>, i: nat)
    requires i < |reports|
    ensures Table(reports[..i + 1]) == Table(reports[..i]) + reports[i].path.base + [0] + reports[i].id + [0]
  {
    assert reports[..i + 1][..i] == reports[..i];
  }

  /** Appends a string and its NUL to the table; returns where it is. */
  method AddStringToTable(table: Text, s: Text) returns (index: nat, table': Text)
    ensures index == |table| && table' == table + s + [0]
  {
    index := |table|;
    table' := table + s;
    table' := table' + [0];
  }

  lemma {:induction false} NoneStays(b: seq<byte>, k: nat, n: nat, dir: Text, table: Text)
    requires k <= n && HEADER_SIZE + RECORD_SIZE * n <= |b|
    requires ParseReports(b, k, dir, table) == None
    ensures ParseReports(b, n, dir, table) == None
    decreases n
  {
    hide RecordAt, FromRecord;
    if k < n {
      NoneStays(b, k, n - 1, dir, table);
    }
  }
}
