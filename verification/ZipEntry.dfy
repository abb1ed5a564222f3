/** Reading the first file of a ZIP archive, whose layout is section 4.3 of PKWARE's APPNOTE.TXT. */
module ZipEntry {
  import opened Prelude

  type Byte = b: nat | b < 256

  type Bytes = seq<Byte>

  const EOCD_SIGNATURE: nat := 0x06054b50
  const CENTRAL_SIGNATURE: nat := 0x02014b50
  const LOCAL_SIGNATURE: nat := 0x04034b50
  const SLASH: Byte := 0x2f

  datatype ZipError = EocdNotFound | EntryNotFound | LocalHeaderMissing | UnsupportedMethod | OutOfRange | InflateFailed

  // ---------------------------------------------------------------------------
  // Little-endian numbers
  // ---------------------------------------------------------------------------

  function Read16(buffer: Bytes, offset: nat): (r: Result<nat, ZipError>)
    ensures r.Ok? <==> offset + 2 <= |buffer|
  {
    if offset + 2 <= |buffer| then
      var n: nat := (buffer[offset] as int) + 256 * (buffer[offset + 1] as int);
      Ok(n)
    else
      Err(OutOfRange)
  }

  function Read32(buffer: Bytes, offset: nat): (r: Result<nat, ZipError>)
    ensures r.Ok? <==> offset + 4 <= |buffer|
  {
    if offset + 4 <= |buffer| then
      var low, high := (buffer[offset] as int) + 256 * (buffer[offset + 1] as int), (buffer[offset + 2] as int) + 256 * (buffer[offset + 3] as int);
      var n: nat := low + 65_536 * high;
      Ok(n)
    else
      Err(OutOfRange)
  }

  function Le16(n: nat): (r: Bytes)
    requires n < 65_536
    ensures |r| == 2
  {
    [n % 256, n / 256]
  }

  function Le32(n: nat): (r: Bytes)
    requires n < 4_294_967_296
    ensures |r| == 4
  {
    [n % 256, n / 256 % 256, n / 65_536 % 256, n / 16_777_216]
  }

  /** Numbers are stored lowest byte first, so the three signatures are the letters PK and two numbers. */
  lemma BytesOfNumbers(buffer: Bytes, offset: nat)
    ensures offset + 2 <= |buffer| ==>
              Read16(buffer, offset).value == (buffer[offset] as int) + 0x100 * (buffer[offset + 1] as int)
    ensures offset + 4 <= |buffer| ==>
              Read32(buffer, offset).value == (buffer[offset] as int) + 0x100 * (buffer[offset + 1] as int)
                                              + 0x1_0000 * (buffer[offset + 2] as int) + 0x100_0000 * (buffer[offset + 3] as int)
    ensures Le32(LOCAL_SIGNATURE) == [0x50, 0x4b, 3, 4] && Le32(CENTRAL_SIGNATURE) == [0x50, 0x4b, 1, 2]
    ensures Le32(EOCD_SIGNATURE) == [0x50, 0x4b, 5, 6]
  {
  }

  /** `part` stands in `buffer` at `offset`. */
  predicate Holds(buffer: Bytes, offset: nat, part: Bytes) {
    offset + |part| <= |buffer| && buffer[offset..offset + |part|] == part
  }

  lemma HoldsPart(buffer: Bytes, offset: nat, before: Bytes, part: Bytes, after: Bytes)
    requires Holds(buffer, offset, before + part + after)
    ensures Holds(buffer, offset + |before|, part)
  {
    var whole := before + part + after;
    forall i | 0 <= i < |part|
      ensures buffer[offset + |before| + i] == part[i]
    {
      assert whole[|before| + i] == part[i];
      assert buffer[offset..offset + |whole|][|before| + i] == whole[|before| + i];
    }
  }

  lemma ReadsBack16(buffer: Bytes, offset: nat, n: nat)
    requires n < 65_536 && Holds(buffer, offset, Le16(n))
    ensures Read16(buffer, offset) == Ok(n)
  {
    var part := buffer[offset..offset + 2];
    assert part[0] == buffer[offset] && part[1] == buffer[offset + 1];
  }

  lemma ReadsBack32(buffer: Bytes, offset: nat, n: nat)
    requires n < 4_294_967_296 && Holds(buffer, offset, Le32(n))
    ensures Read32(buffer, offset) == Ok(n)
  {
    var part := buffer[offset..offset + 4];
    assert part[0] == buffer[offset] && part[1] == buffer[offset + 1];
    assert part[2] == buffer[offset + 2] && part[3] == buffer[offset + 3];
    BytesAddUp(n);
  }

  lemma BytesAddUp(n: nat)
    ensures n == n % 256 + 256 * (n / 256 % 256) + 65_536 * (n / 65_536 % 256) + 16_777_216 * (n / 16_777_216)
  {
    var a := n / 256;
    var b := a / 256;
    var c := b / 256;
    assert n == 65_536 * b + (256 * (a % 256) + n % 256);
    assert n == 16_777_216 * c + (65_536 * (b % 256) + 256 * (a % 256) + n % 256);
  }

  // ---------------------------------------------------------------------------
  // The reader
  // ---------------------------------------------------------------------------

  /** Bytes from `start` to `end`, clamped to the buffer. */
  function Subarray(buffer: Bytes, start: nat, end: nat): Bytes {
    if start >= |buffer| || end <= start then [] else buffer[start..Min(end, |buffer|)]
  }

  predicate IsDirectoryName(name: Bytes) {
    name != [] && name[|name| - 1] == SLASH
  }

  predicate LooksLikeEnd(buffer: Bytes, offset: nat) {
    Read32(buffer, offset) == Ok(EOCD_SIGNATURE)
  }

  /** The end-of-central-directory record, searched backwards from `from`: the last one that looks like it. */
  function FindEocd(buffer: Bytes, from: int): (offset: int)
    requires from + 22 <= |buffer|
    ensures -1 <= offset <= Max(from, -1)
    ensures offset >= 0 ==> LooksLikeEnd(buffer, offset)
    ensures forall k :: offset < k <= from ==> !LooksLikeEnd(buffer, k)
    decreases from + 1
  {
    if from < 0 then -1
    else if LooksLikeEnd(buffer, from) then from
    else FindEocd(buffer, from - 1)
  }

  type Inflate = Bytes -> Result<Bytes, ZipError>

  function Decode(method_: nat, compressed: Bytes, inflate: Inflate): Result<Bytes, ZipError> {
    if method_ == 0 then Ok(compressed) else if method_ == 8 then inflate(compressed) else Err(UnsupportedMethod)
  }

  /** The data of the entry whose local header is at `header`. */
  function LocalData(buffer: Bytes, header: nat, compressedSize: nat): Result<Bytes, ZipError> {
    match Read32(buffer, header)
    case Err(error) => Err(error)
    case Ok(signature) =>
      if signature != LOCAL_SIGNATURE then Err(LocalHeaderMissing)
      else
        var nameLength, extraLength := Read16(buffer, header + 26), Read16(buffer, header + 28);
        if nameLength.Err? || extraLength.Err? then Err(OutOfRange)
        else
          var start := header + 30 + nameLength.value + extraLength.value;
          Ok(Subarray(buffer, start, start + compressedSize))
  }

  datatype Central = Central(
    method_: nat, compressedSize: nat, nameLength: nat, extraLength: nat, commentLength: nat, localHeader: nat)
  {
    function Size(): nat {
      46 + nameLength + extraLength + commentLength
    }
  }

  function ReadCentral(buffer: Bytes, offset: nat): Central
    requires offset + 46 <= |buffer|
  {
    Central(Read16(buffer, offset + 10).value, Read32(buffer, offset + 20).value, Read16(buffer, offset + 28).value,
            Read16(buffer, offset + 30).value, Read16(buffer, offset + 32).value, Read32(buffer, offset + 42).value)
  }

  predicate IsCentralHeader(buffer: Bytes, offset: nat) {
    offset + 46 <= |buffer| && Read32(buffer, offset) == Ok(CENTRAL_SIGNATURE)
  }

  function EntryAt(buffer: Bytes, header: Central, inflate: Inflate): Result<Bytes, ZipError> {
    match LocalData(buffer, header.localHeader, header.compressedSize)
    case Err(error) => Err(error)
    case Ok(compressed) => Decode(header.method_, compressed, inflate)
  }

  function NameAt(buffer: Bytes, offset: nat, header: Central): Bytes {
    Subarray(buffer, offset + 46, offset + 46 + header.nameLength)
  }

  /** The first file listed from `offset` on. */
  function FirstFile(buffer: Bytes, offset: nat, inflate: Inflate): Result<Bytes, ZipError>
    decreases |buffer| - offset
  {
    if !IsCentralHeader(buffer, offset) then Err(EntryNotFound)
    else
      var header := ReadCentral(buffer, offset);
      if IsDirectoryName(NameAt(buffer, offset, header)) then FirstFile(buffer, offset + header.Size(), inflate)
      else EntryAt(buffer, header, inflate)
  }

  function Extract(buffer: Bytes, inflate: Inflate): Result<Bytes, ZipError> {
    var eocd := FindEocd(buffer, |buffer| - 22);
    if eocd < 0 then Err(EocdNotFound) else FirstFile(buffer, Read32(buffer, eocd + 16).value, inflate)
  }

  method FindEndRecord(buffer: Bytes) returns (eocdOffset: int)
    ensures eocdOffset == FindEocd(buffer, |buffer| - 22)
  {
    eocdOffset := -1;
    var offset := |buffer| - 22;
    while offset >= 0
      invariant offset + 22 <= |buffer| && eocdOffset == -1
      invariant FindEocd(buffer, |buffer| - 22) == FindEocd(buffer, offset)
    {
      if LooksLikeEnd(buffer, offset) {
        return offset;
      }
      offset := offset - 1;
    }
  }

  /** Both scans terminate, and every read is checked or stays inside the buffer. */
  method ExtractFirstZipEntry(buffer: Bytes, inflate: Inflate) returns (result: Result<Bytes, ZipError>)
    ensures result == Extract(buffer, inflate)
  {
    hide FindEocd, EntryAt, Subarray;
    var eocdOffset := FindEndRecord(buffer);
    if eocdOffset < 0 { return Err(EocdNotFound); }

    var offset := Read32(buffer, eocdOffset + 16).value;
    while offset + 46 <= |buffer|
      invariant Extract(buffer, inflate) == FirstFile(buffer, offset, inflate)
      decreases |buffer| - offset
    {
      if Read32(buffer, offset) != Ok(CENTRAL_SIGNATURE) { break; }
      var header := ReadCentral(buffer, offset);
      if !IsDirectoryName(NameAt(buffer, offset, header)) {
        return EntryAt(buffer, header, inflate);
      }
      offset := offset + header.Size();
    }
    return Err(EntryNotFound);
  }

  // ---------------------------------------------------------------------------
  // A writer
  // ---------------------------------------------------------------------------

  /**
   One entry. `versions`, `times`, `attributes` and `localRest` are header columns the reader skips;
   `trailer` stands for a data descriptor.
   */
  datatype Entry = Entry(
    name: Bytes, extra: Bytes, comment: Bytes, localName: Bytes, localExtra: Bytes, method_: nat, data: Bytes,
    originalSize: nat, versions: Bytes, times: Bytes, attributes: Bytes, localRest: Bytes, trailer: Bytes)

  predicate IsEntry(e: Entry) {
    && |e.name| < 65_536 && |e.extra| < 65_536 && |e.comment| < 65_536
    && |e.localName| < 65_536 && |e.localExtra| < 65_536
    && e.method_ < 65_536 && |e.data| < 4_294_967_296 && e.originalSize < 4_294_967_296
    && |e.versions| == 6 && |e.times| == 8 && |e.attributes| == 8 && |e.localRest| == 22
  }

  function LocalHeader(e: Entry): Bytes
    requires IsEntry(e)
  {
    Le32(LOCAL_SIGNATURE) + e.localRest + Le16(|e.localName|) + Le16(|e.localExtra|)
  }

  function LocalRecord(e: Entry): Bytes
    requires IsEntry(e)
  {
    LocalHeader(e) + e.localName + e.localExtra + e.data + e.trailer
  }

  /** The fixed part of a central header, for an entry stored at `at`. */
  function CentralHeader(e: Entry, at: nat): (r: Bytes)
    requires IsEntry(e) && at < 4_294_967_296
    ensures |r| == 46
  {
    Le32(CENTRAL_SIGNATURE) + e.versions + Le16(e.method_) + e.times + Le32(|e.data|) + Le32(e.originalSize)
    + Le16(|e.name|) + Le16(|e.extra|) + Le16(|e.comment|) + e.attributes + Le32(at)
  }

  function CentralRecord(e: Entry, at: nat): Bytes
    requires IsEntry(e) && at < 4_294_967_296
  {
    CentralHeader(e, at) + e.name + e.extra + e.comment
  }

  predicate AllEntries(entries: seq<Entry>) {
    forall i :: 0 <= i < |entries| ==> IsEntry(entries[i])
  }

  function Locals(entries: seq<Entry>): Bytes
    requires AllEntries(entries)
  {
    if entries == [] then [] else Locals(entries[..|entries| - 1]) + LocalRecord(entries[|entries| - 1])
  }

  /** The central directory of `entries` written from position `from` of the list on. */
  function Centrals(entries: seq<Entry>, from: nat): Bytes
    requires AllEntries(entries) && |Locals(entries)| < 4_294_967_296 && from <= |entries|
    decreases |entries| - from
  {
    if from == |entries| then []
    else
      LocalsGrow(entries, from);
      CentralRecord(entries[from], |Locals(entries[..from])|) + Centrals(entries, from + 1)
  }

  lemma {:induction false} LocalsGrow(entries: seq<Entry>, i: nat)
    requires AllEntries(entries) && i <= |entries|
    ensures |Locals(entries[..i])| <= |Locals(entries)|
    decreases |entries|
  {
    var n := |entries| - 1;
    if i == |entries| {
      assert entries[..i] == entries;
    } else {
      LocalsGrow(entries[..n], i);
      assert entries[..n][..i] == entries[..i];
    }
  }

  /** The end record with the archive comment; `counts` and `size` are columns the reader skips. */
  function EndRecord(counts: Bytes, size: nat, directory: nat, comment: Bytes): (r: Bytes)
    requires |counts| == 8 && size < 4_294_967_296 && directory < 4_294_967_296 && |comment| < 65_536
    ensures |r| == 22 + |comment|
  {
    Le32(EOCD_SIGNATURE) + counts + Le32(size) + Le32(directory) + Le16(|comment|) + comment
  }

  predicate Fits(entries: seq<Entry>, counts: Bytes, comment: Bytes) {
    && AllEntries(entries) && |counts| == 8 && |comment| < 65_536
    && |Locals(entries)| < 4_294_967_296 && |Centrals(entries, 0)| < 4_294_967_296
  }

  function EndOf(entries: seq<Entry>, counts: Bytes, comment: Bytes): Bytes
    requires Fits(entries, counts, comment)
  {
    EndRecord(counts, |Centrals(entries, 0)|, |Locals(entries)|, comment)
  }

  function Archive(entries: seq<Entry>, counts: Bytes, comment: Bytes): Bytes
    requires Fits(entries, counts, comment)
  {
    Locals(entries) + Centrals(entries, 0) + EndOf(entries, counts, comment)
  }

  /** No later spot of the end record, inside its own columns or the comment, looks like an end record. */
  predicate OneEnd(end: Bytes) {
    forall k :: 0 < k <= |end| - 22 ==> !LooksLikeEnd(end, k)
  }

  // ---------------------------------------------------------------------------
  // The reader inverts the writer
  // ---------------------------------------------------------------------------

  /** The end record of an archive is found exactly when nothing after its start looks like one. */
  lemma EndIsFound(before: Bytes, counts: Bytes, size: nat, directory: nat, comment: Bytes)
    requires |counts| == 8 && size < 4_294_967_296 && directory < 4_294_967_296 && |comment| < 65_536
    ensures var end := EndRecord(counts, size, directory, comment);
            var buffer := before + end;
            && Read32(buffer, |before| + 16) == Ok(directory)
            && (FindEocd(buffer, |buffer| - 22) == |before| <==> OneEnd(end))
  {
    hide Le32, Le16, Read32, EndRecord;
    var end := EndRecord(counts, size, directory, comment);
    var buffer, at := before + end, |before|;
    assert Holds(buffer, at, end);
    EndParts(counts, size, directory, comment);
    HoldsPart(buffer, at, [], Le32(EOCD_SIGNATURE), counts + Le32(size) + Le32(directory) + Le16(|comment|) + comment);
    HoldsPart(buffer, at, Le32(EOCD_SIGNATURE) + counts + Le32(size), Le32(directory), Le16(|comment|) + comment);
    ReadsBack32(buffer, at, EOCD_SIGNATURE);
    ReadsBack32(buffer, at + 16, directory);
    assert LooksLikeEnd(buffer, at);
    forall k | 0 < k <= |end| - 22
      ensures LooksLikeEnd(buffer, at + k) <==> LooksLikeEnd(end, k)
    {
      ReadShifted(before, end, k);
    }
    var found := FindEocd(buffer, |buffer| - 22);
    if found != at {
      assert LooksLikeEnd(end, found - at);
    }
  }

  lemma ReadShifted(before: Bytes, rest: Bytes, offset: nat)
    requires offset + 4 <= |rest|
    ensures Read32(before + rest, |before| + offset) == Read32(rest, offset)
  {
  }

  lemma EndParts(counts: Bytes, size: nat, directory: nat, comment: Bytes)
    requires |counts| == 8 && size < 4_294_967_296 && directory < 4_294_967_296 && |comment| < 65_536
    ensures EndRecord(counts, size, directory, comment)
         == [] + Le32(EOCD_SIGNATURE) + (counts + Le32(size) + Le32(directory) + Le16(|comment|) + comment)
    ensures EndRecord(counts, size, directory, comment)
         == (Le32(EOCD_SIGNATURE) + counts + Le32(size)) + Le32(directory) + (Le16(|comment|) + comment)
  {
    hide Le32, Le16;
  }

  function HeaderOf(e: Entry, at: nat): Central {
    Central(e.method_, |e.data|, |e.name|, |e.extra|, |e.comment|, at)
  }

  /** A written central record reads back field by field. */
  lemma CentralReadsBack(buffer: Bytes, offset: nat, e: Entry, at: nat)
    requires IsEntry(e) && at < 4_294_967_296 && Holds(buffer, offset, CentralRecord(e, at))
    ensures IsCentralHeader(buffer, offset) && ReadCentral(buffer, offset) == HeaderOf(e, at)
    ensures NameAt(buffer, offset, HeaderOf(e, at)) == e.name
  {
    hide Le32, Le16, Read32, Read16, CentralHeader;
    HoldsPart(buffer, offset, [], CentralHeader(e, at), e.name + e.extra + e.comment);
    assert CentralRecord(e, at) == [] + CentralHeader(e, at) + (e.name + e.extra + e.comment);
    assert CentralRecord(e, at) == CentralHeader(e, at) + e.name + (e.extra + e.comment);
    HoldsPart(buffer, offset, CentralHeader(e, at), e.name, e.extra + e.comment);
    CentralFields(buffer, offset, e, at);
    assert NameAt(buffer, offset, HeaderOf(e, at)) == e.name;
  }

  lemma CentralFields(buffer: Bytes, offset: nat, e: Entry, at: nat)
    requires IsEntry(e) && at < 4_294_967_296 && Holds(buffer, offset, CentralHeader(e, at))
    ensures IsCentralHeader(buffer, offset) && ReadCentral(buffer, offset) == HeaderOf(e, at)
  {
    hide Le32, Le16, Read32, Read16, Holds;
    var a := Le32(CENTRAL_SIGNATURE) + e.versions;
    var b := a + Le16(e.method_) + e.times;
    var c := b + Le32(|e.data|) + Le32(e.originalSize);
    var whole := CentralHeader(e, at);
    assert whole == [] + Le32(CENTRAL_SIGNATURE) + whole[4..];
    HoldsPart(buffer, offset, [], Le32(CENTRAL_SIGNATURE), whole[4..]);
    ReadsBack32(buffer, offset, CENTRAL_SIGNATURE);
    assert whole == a + Le16(e.method_) + whole[12..];
    HoldsPart(buffer, offset, a, Le16(e.method_), whole[12..]);
    ReadsBack16(buffer, offset + 10, e.method_);
    assert whole == b + Le32(|e.data|) + whole[24..];
    HoldsPart(buffer, offset, b, Le32(|e.data|), whole[24..]);
    ReadsBack32(buffer, offset + 20, |e.data|);
    LengthFields(buffer, offset, e, at, c);
    InBuffer(buffer, offset, whole);
  }

  lemma InBuffer(buffer: Bytes, offset: nat, part: Bytes)
    requires Holds(buffer, offset, part)
    ensures offset + |part| <= |buffer|
  {
  }

  lemma LengthFields(buffer: Bytes, offset: nat, e: Entry, at: nat, c: Bytes)
    requires IsEntry(e) && at < 4_294_967_296 && Holds(buffer, offset, CentralHeader(e, at))
    requires c == Le32(CENTRAL_SIGNATURE) + e.versions + Le16(e.method_) + e.times + Le32(|e.data|) + Le32(e.originalSize)
    ensures Read16(buffer, offset + 28) == Ok(|e.name|)
    ensures Read16(buffer, offset + 30) == Ok(|e.extra|)
    ensures Read16(buffer, offset + 32) == Ok(|e.comment|)
    ensures Read32(buffer, offset + 42) == Ok(at)
  {
    hide Le32, Le16, Read32, Read16, Holds;
    var whole := CentralHeader(e, at);
    var d := c + Le16(|e.name|) + Le16(|e.extra|);
    var f := d + Le16(|e.comment|) + e.attributes;
    assert whole == c + Le16(|e.name|) + whole[30..];
    HoldsPart(buffer, offset, c, Le16(|e.name|), whole[30..]);
    ReadsBack16(buffer, offset + 28, |e.name|);
    assert whole == (c + Le16(|e.name|)) + Le16(|e.extra|) + whole[32..];
    HoldsPart(buffer, offset, c + Le16(|e.name|), Le16(|e.extra|), whole[32..]);
    ReadsBack16(buffer, offset + 30, |e.extra|);
    assert whole == d + Le16(|e.comment|) + whole[34..];
    HoldsPart(buffer, offset, d, Le16(|e.comment|), whole[34..]);
    ReadsBack16(buffer, offset + 32, |e.comment|);
    assert whole == f + Le32(at) + [];
    HoldsPart(buffer, offset, f, Le32(at), []);
    ReadsBack32(buffer, offset + 42, at);
  }

  lemma LocalSignature(buffer: Bytes, at: nat, e: Entry)
    requires IsEntry(e) && Holds(buffer, at, LocalRecord(e))
    ensures Read32(buffer, at) == Ok(LOCAL_SIGNATURE)
  {
    hide Le32, Le16, Read32, Read16;
    var whole := LocalRecord(e);
    assert whole == [] + Le32(LOCAL_SIGNATURE) + whole[4..];
    HoldsPart(buffer, at, [], Le32(LOCAL_SIGNATURE), whole[4..]);
    ReadsBack32(buffer, at, LOCAL_SIGNATURE);
  }

  /** The data of a written local record is found again, whatever its local name and extra fields are. */
  lemma LocalReadsBack(buffer: Bytes, at: nat, e: Entry)
    requires IsEntry(e) && Holds(buffer, at, LocalRecord(e))
    ensures LocalData(buffer, at, |e.data|) == Ok(e.data)
  {
    hide Le32, Le16, Read32, Read16;
    var whole := LocalRecord(e);
    LocalSignature(buffer, at, e);
    var a := Le32(LOCAL_SIGNATURE) + e.localRest;
    assert whole == a + Le16(|e.localName|) + whole[28..];
    HoldsPart(buffer, at, a, Le16(|e.localName|), whole[28..]);
    ReadsBack16(buffer, at + 26, |e.localName|);
    assert whole == (a + Le16(|e.localName|)) + Le16(|e.localExtra|) + whole[30..];
    HoldsPart(buffer, at, a + Le16(|e.localName|), Le16(|e.localExtra|), whole[30..]);
    ReadsBack16(buffer, at + 28, |e.localExtra|);
    var b := LocalHeader(e) + e.localName + e.localExtra;
    assert whole == b + e.data + e.trailer;
    HoldsPart(buffer, at, b, e.data, e.trailer);
  }

  lemma {:induction false} LocalsHold(buffer: Bytes, entries: seq<Entry>, i: nat)
    requires AllEntries(entries) && i < |entries| && Holds(buffer, 0, Locals(entries))
    ensures Holds(buffer, |Locals(entries[..i])|, LocalRecord(entries[i]))
    decreases |entries|
  {
    hide LocalRecord;
    var n := |entries| - 1;
    var before, last := Locals(entries[..n]), LocalRecord(entries[n]);
    if i == n {
      assert Locals(entries) == before + last + [];
      HoldsPart(buffer, 0, before, last, []);
    } else {
      assert Locals(entries) == [] + before + last;
      HoldsPart(buffer, 0, [], before, last);
      LocalsHold(buffer, entries[..n], i);
      assert entries[..n][..i] == entries[..i];
    }
  }

  /** Walking the central directory from entry `from` reaches the first file `first`. */
  lemma {:induction false} WalkReachesFirstFile(
    buffer: Bytes, offset: nat, entries: seq<Entry>, from: nat, first: nat, inflate: Inflate)
    requires AllEntries(entries) && |Locals(entries)| < 4_294_967_296
    requires from <= first < |entries| && !IsDirectoryName(entries[first].name)
    requires forall i :: from <= i < first ==> IsDirectoryName(entries[i].name)
    requires Holds(buffer, 0, Locals(entries)) && Holds(buffer, offset, Centrals(entries, from))
    ensures FirstFile(buffer, offset, inflate) == Decode(entries[first].method_, entries[first].data, inflate)
    decreases first - from
  {
    hide LocalRecord, CentralRecord, Locals, LocalData, ReadCentral, Decode, NameAt, IsCentralHeader, IsDirectoryName;
    var e, at := entries[from], |Locals(entries[..from])|;
    LocalsGrow(entries, from);
    var record, rest := CentralRecord(e, at), Centrals(entries, from + 1);
    assert Centrals(entries, from) == [] + record + rest;
    HoldsPart(buffer, offset, [], record, rest);
    CentralReadsBack(buffer, offset, e, at);
    if from == first {
      LocalsHold(buffer, entries, from);
      LocalReadsBack(buffer, at, e);
    } else {
      assert Centrals(entries, from) == record + rest + [];
      HoldsPart(buffer, offset, record, rest, []);
      RecordSize(e, at);
      WalkReachesFirstFile(buffer, offset + |record|, entries, from + 1, first, inflate);
    }
  }

  lemma RecordSize(e: Entry, at: nat)
    requires IsEntry(e) && at < 4_294_967_296
    ensures |CentralRecord(e, at)| == HeaderOf(e, at).Size()
  {
  }

  lemma ArchiveHolds(entries: seq<Entry>, counts: Bytes, comment: Bytes)
    requires Fits(entries, counts, comment)
    ensures var buffer := Archive(entries, counts, comment);
            Holds(buffer, 0, Locals(entries)) && Holds(buffer, |Locals(entries)|, Centrals(entries, 0))
  {
    hide Locals, Centrals, EndRecord;
    var locals, centrals, end := Locals(entries), Centrals(entries, 0), EndOf(entries, counts, comment);
    var buffer := Archive(entries, counts, comment);
    assert Holds(buffer, 0, [] + locals + (centrals + end)) by {
      assert buffer == [] + locals + (centrals + end);
    }
    HoldsPart(buffer, 0, [], locals, centrals + end);
    assert Holds(buffer, 0, locals + centrals + end);
    HoldsPart(buffer, 0, locals, centrals, end);
  }

  /** The entry is a directory: its name ends in a slash. */
  predicate IsDirectory(e: Entry) {
    |e.name| > 0 && e.name[|e.name| - 1] == 47
  }

  /**
   The reader inverts the writer: of every archive whose first file is entry `first`, after directories
   only, it returns exactly that file's content, whatever the comment is as long as it makes no second
   end record; an empty comment never does. Stored content comes back as it is, deflated content inflated.
   */
  lemma ReaderInvertsWriter(entries: seq<Entry>, counts: Bytes, comment: Bytes, first: nat, inflate: Inflate)
    requires Fits(entries, counts, comment) && OneEnd(EndOf(entries, counts, comment))
    requires first < |entries| && !IsDirectory(entries[first])
    requires forall i :: 0 <= i < first ==> IsDirectory(entries[i])
    ensures var file, result := entries[first], Extract(Archive(entries, counts, comment), inflate);
            && (file.method_ == 0 ==> result == Ok(file.data))
            && (file.method_ == 8 ==> result == inflate(file.data))
            && (file.method_ != 0 && file.method_ != 8 ==> result == Err(UnsupportedMethod))
  {
    hide Locals, Centrals, FirstFile, FindEocd, Read32, EndRecord;
    var locals, centrals := Locals(entries), Centrals(entries, 0);
    var buffer := Archive(entries, counts, comment);
    EndIsFound(locals + centrals, counts, |centrals|, |locals|, comment);
    ArchiveHolds(entries, counts, comment);
    WalkReachesFirstFile(buffer, |locals|, entries, 0, first, inflate);
  }

  /** And an archive of directories alone has no file. */
  lemma DirectoriesAloneHoldNoFile(entries: seq<Entry>, counts: Bytes, comment: Bytes, inflate: Inflate)
    requires Fits(entries, counts, comment) && OneEnd(EndOf(entries, counts, comment))
    requires forall i :: 0 <= i < |entries| ==> IsDirectory(entries[i])
    ensures Extract(Archive(entries, counts, comment), inflate) == Err(EntryNotFound)
  {
    hide Locals, Centrals, FirstFile, FindEocd, Read32, EndRecord;
    var locals, centrals := Locals(entries), Centrals(entries, 0);
    var buffer, end := Archive(entries, counts, comment), EndOf(entries, counts, comment);
    EndIsFound(locals + centrals, counts, |centrals|, |locals|, comment);
    ArchiveHolds(entries, counts, comment);
    assert Holds(buffer, |locals|, centrals + end) by {
      assert buffer == locals + (centrals + end) + [];
      HoldsPart(buffer, 0, locals, centrals + end, []);
    }
    EndIsNoHeader(buffer, |locals| + |centrals|, counts, |centrals|, |locals|, comment);
    WalkPassesDirectories(buffer, |locals|, entries, 0, inflate);
  }

  lemma EndIsNoHeader(buffer: Bytes, at: nat, counts: Bytes, size: nat, directory: nat, comment: Bytes)
    requires |counts| == 8 && size < 4_294_967_296 && directory < 4_294_967_296 && |comment| < 65_536
    requires at + 22 <= |buffer| && buffer[at..] == EndRecord(counts, size, directory, comment)
    ensures !IsCentralHeader(buffer, at)
  {
    hide Le32, Le16, Read32, EndRecord;
    EndParts(counts, size, directory, comment);
    HoldsPart(buffer, at, [], Le32(EOCD_SIGNATURE), counts + Le32(size) + Le32(directory) + Le16(|comment|) + comment);
    ReadsBack32(buffer, at, EOCD_SIGNATURE);
  }

  lemma {:induction false} WalkPassesDirectories(buffer: Bytes, offset: nat, entries: seq<Entry>, from: nat, inflate: Inflate)
    requires AllEntries(entries) && |Locals(entries)| < 4_294_967_296
    requires from <= |entries| && forall i :: from <= i < |entries| ==> IsDirectory(entries[i])
    requires Holds(buffer, offset, Centrals(entries, from))
    requires !IsCentralHeader(buffer, offset + |Centrals(entries, from)|)
    ensures FirstFile(buffer, offset, inflate) == Err(EntryNotFound)
    decreases |entries| - from
  {
    hide CentralRecord, Locals, LocalData, ReadCentral, NameAt, IsCentralHeader, EntryAt;
    if from < |entries| {
      var e, at := entries[from], |Locals(entries[..from])|;
      LocalsGrow(entries, from);
      var record, rest := CentralRecord(e, at), Centrals(entries, from + 1);
      assert Centrals(entries, from) == [] + record + rest;
      HoldsPart(buffer, offset, [], record, rest);
      CentralReadsBack(buffer, offset, e, at);
      assert Centrals(entries, from) == record + rest + [];
      HoldsPart(buffer, offset, record, rest, []);
      RecordSize(e, at);
      WalkPassesDirectories(buffer, offset + |record|, entries, from + 1, inflate);
    }
  }

  /** A comment that is itself an empty end record. */
  function FalseEnd(): (r: Bytes)
    ensures |r| == 22
  {
    EndRecord([0, 0, 0, 0, 0, 0, 0, 0], 0, 0, [])
  }

  /** Without that condition the file is lost: behind such a comment every non-empty archive reads as having no file. */
  lemma ACommentCanHideEveryFile(entries: seq<Entry>, counts: Bytes, inflate: Inflate)
    requires entries != [] && Fits(entries, counts, FalseEnd())
    ensures !OneEnd(EndOf(entries, counts, FalseEnd()))
    ensures Extract(Archive(entries, counts, FalseEnd()), inflate) == Err(EntryNotFound)
  {
    hide Locals, Centrals, Decode, Read32, EndRecord, LocalRecord, FindEocd, Archive;
    var end := EndOf(entries, counts, FalseEnd());
    HiddenEnd(counts, |Centrals(entries, 0)|, |Locals(entries)|);
    assert LooksLikeEnd(end, 22);
    var buffer := Archive(entries, counts, FalseEnd());
    FalseEndIsFound(entries, counts);
    ArchiveHolds(entries, counts, FalseEnd());
    LocalsHold(buffer, entries, 0);
    assert entries[..0] == [];
    NoLocals();
    LocalSignature(buffer, 0, entries[0]);
  }

  /** Behind its own columns such an end record holds another one. */
  lemma HiddenEnd(counts: Bytes, size: nat, directory: nat)
    requires |counts| == 8 && size < 4_294_967_296 && directory < 4_294_967_296
    ensures LooksLikeEnd(EndRecord(counts, size, directory, FalseEnd()), 22)
  {
    hide Read32, EndRecord, FindEocd;
    var end := EndRecord(counts, size, directory, FalseEnd());
    EndsWithComment(counts, size, directory, FalseEnd());
    assert end == end[..22] + FalseEnd();
    ReadShifted(end[..22], FalseEnd(), 0);
    FalseEndLooksLikeOne();
  }

  lemma FalseEndLooksLikeOne()
    ensures LooksLikeEnd(FalseEnd(), 0) && OneEnd(FalseEnd())
  {
    hide Read32, EndRecord;
    EndIsFound([], [0, 0, 0, 0, 0, 0, 0, 0], 0, 0, []);
    assert [] + FalseEnd() == FalseEnd();
  }

  /** The reader takes that one, which points at the start of the archive. */
  lemma FalseEndIsFound(entries: seq<Entry>, counts: Bytes)
    requires Fits(entries, counts, FalseEnd())
    ensures var buffer := Archive(entries, counts, FalseEnd());
            FindEocd(buffer, |buffer| - 22) == |buffer| - 22 >= 0 && Read32(buffer, |buffer| - 22 + 16) == Ok(0)
  {
    hide Locals, Centrals, Read32, EndRecord, FindEocd;
    var buffer := Archive(entries, counts, FalseEnd());
    var before := buffer[..|buffer| - 22];
    EndsWithComment(counts, |Centrals(entries, 0)|, |Locals(entries)|, FalseEnd());
    assert EndOf(entries, counts, FalseEnd())[22..] == FalseEnd();
    assert buffer == before + FalseEnd();
    FalseEndLooksLikeOne();
    EndIsFound(before, [0, 0, 0, 0, 0, 0, 0, 0], 0, 0, []);
  }

  lemma NoLocals()
    ensures Locals([]) == []
  {
  }

  lemma EndsWithComment(counts: Bytes, size: nat, directory: nat, comment: Bytes)
    requires |counts| == 8 && size < 4_294_967_296 && directory < 4_294_967_296 && |comment| < 65_536
    ensures EndRecord(counts, size, directory, comment)[22..] == comment
  {
    hide Le32, Le16;
  }
}
