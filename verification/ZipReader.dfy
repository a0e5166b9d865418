/**
 A reader that finds an archive's files as section 4.3 of APPNOTE.TXT lays them out, and what it recovers.
 */
module ZipReader {
  import opened Common
  import opened Crc
  import opened CrcDivision
  import opened Zip
  import opened ZipLayout

  /** The local header at `at` and the data behind it. */
  function LocalFile(z: Data, at: nat): Option<File> {
    if at + 30 > |z| || Get32(z, at) != 0x04034b50 || Get16(z, at + 8) != 0 then None
    else
      var name := at + 30;
      var data := name + Get16(z, at + 26) + Get16(z, at + 28);
      var size := Get32(z, at + 18);
      if data + size > |z| || Get32(z, at + 22) != size then None
      else Some(File(z[name..name + Get16(z, at + 26)], z[data..data + size]))
  }

  /** The same, checked against its own checksum. */
  function ReadLocal(z: Data, at: nat): Option<File> {
    match LocalFile(z, at)
    case None => None
    case Some(f) => if Get32(z, at + 14) == DivisionChecksum(f.bytes) then Some(f) else None
  }

  /** All the names are short enough for their length field. */
  ghost predicate ShortNames(files: seq<File>) {
    forall i :: 0 <= i < |files| ==> |files[i].name| < 0x1_0000
  }

  /** The directory entry at `at` must match the local header it points at. */
  function ReadEntry(z: Data, at: nat, end: nat): (r: Option<File>)
    requires end <= |z|
    ensures r.Some? ==> |r.value.name| < 0x1_0000
  {
    if at + 46 > end || Get32(z, at) != 0x02014b50 || Get16(z, at + 10) != 0 then None
    else if NextEntry(z, at) > end then None
    else match ReadLocal(z, Get32(z, at + 42))
      case None => None
      case Some(f) =>
        if || f.name != z[at + 46..at + 46 + Get16(z, at + 28)]
           || Get32(z, at + 16) != DivisionChecksum(f.bytes)
           || Get32(z, at + 20) != |f.bytes| || Get32(z, at + 24) != |f.bytes|
        then None else Some(f)
  }

  function NextEntry(z: Data, at: nat): nat
    requires at + 46 <= |z|
  {
    at + 46 + Get16(z, at + 28) + Get16(z, at + 30) + Get16(z, at + 32)
  }

  /** `count` directory entries from `at`, which must end exactly at `end`. */
  function ReadCentral(z: Data, at: nat, count: nat, end: nat): (r: Option<seq<File>>)
    requires end <= |z|
    ensures r.Some? ==> ShortNames(r.value)
    decreases count
  {
    if count == 0 then (if at == end then Some([]) else None)
    else match ReadEntry(z, at, end)
      case None => None
      case Some(f) =>
        match ReadCentral(z, NextEntry(z, at), count - 1, end)
        case None => None
        case Some(rest) => Some([f] + rest)
  }

  /** All files of an archive without a comment. */
  function ReadArchive(z: Data): (r: Option<seq<File>>)
    ensures r.Some? ==> ShortNames(r.value)
  {
    if |z| < 22 then None
    else
      var e := |z| - 22;
      if || Get32(z, e) != 0x06054b50 || Get16(z, e + 20) != 0
         || Get16(z, e + 8) != Get16(z, e + 10)
         || Get32(z, e + 16) + Get32(z, e + 12) != e
      then None
      else ReadCentral(z, Get32(z, e + 16), Get16(z, e + 10), e)
  }

  // ---------------------------------------------------------------- reading what was written

  lemma FixedNumbers()
    ensures U32(LOCAL_SIGNATURE) == [0x50, 0x4b, 3, 4] && U32(CENTRAL_SIGNATURE) == [0x50, 0x4b, 1, 2]
    ensures U32(END_SIGNATURE) == [0x50, 0x4b, 5, 6]
    ensures U16(VERSION) == [20, 0] && U16(UTF8_NAMES) == [0, 8] && U16(EPOCH_DATE) == [0x21, 0]
  {
  }

  /** What section 4.3.7 of APPNOTE.TXT says a local header of `e` holds, from its first byte to its last. */
  ghost predicate LocalShape(h: Data, e: Entry) {
    && |h| == 30 + |e.name|
    && Holds(h, 0, [0x50, 0x4b, 3, 4]) && Holds(h, 4, [20, 0]) && Holds(h, 6, [0, 8])
    && Holds(h, 8, Zeros(4)) && Holds(h, 12, [0x21, 0]) && Holds(h, 14, U32(e.crc))
    && Holds(h, 18, U32(|e.bytes|)) && Holds(h, 22, U32(|e.bytes|)) && Holds(h, 26, U16(|e.name|))
    && Holds(h, 28, Zeros(2)) && Holds(h, 30, e.name)
  }

  lemma {:induction false} LocalFields(f: Entry)
    ensures LocalShape(LocalHeader(f), f)
  {
    FixedNumbers();
    var s, size := Zeros(30 + |f.name|), U32(|f.bytes|);
    ZerosHold(30 + |f.name|, 8, 4);
    ZerosHold(30 + |f.name|, 28, 2);
    var h := LocalLayout(
      s, U32(LOCAL_SIGNATURE), U16(VERSION), U16(UTF8_NAMES), U16(EPOCH_DATE), U32(f.crc), size, U16(|f.name|), f.name);
  }

  /** What section 4.3.12 says a directory entry of `e` holds, from its first byte to its last. */
  ghost predicate CentralShape(h: Data, e: Entry, offset: nat) {
    && |h| == 46 + |e.name|
    && Holds(h, 0, [0x50, 0x4b, 1, 2]) && Holds(h, 4, [20, 0]) && Holds(h, 6, [20, 0])
    && Holds(h, 8, [0, 8]) && Holds(h, 10, Zeros(4)) && Holds(h, 14, [0x21, 0])
      && Holds(h, 16, U32(e.crc))
    && Holds(h, 20, U32(|e.bytes|)) && Holds(h, 24, U32(|e.bytes|)) && Holds(h, 28, U16(|e.name|))
    && Holds(h, 30, Zeros(12)) && Holds(h, 42, U32(offset)) && Holds(h, 46, e.name)
  }

  lemma {:induction false} CentralFields(f: Entry, offset: nat)
    ensures CentralShape(CentralHeader(f, offset), f, offset)
  {
    FixedNumbers();
    var s, size := Zeros(46 + |f.name|), U32(|f.bytes|);
    ZerosHold(46 + |f.name|, 10, 4);
    ZerosHold(46 + |f.name|, 30, 12);
    var h := CentralLayout(
      s, U32(CENTRAL_SIGNATURE), U16(VERSION), U16(UTF8_NAMES), U16(EPOCH_DATE), U32(f.crc), size, U16(|f.name|),
      U32(offset), f.name);
  }

  /** What section 4.3.16 says an end record holds, from its first byte to its last. */
  ghost predicate EndShape(h: Data, count: nat, size: nat, offset: nat) {
    && |h| == 22
    && Holds(h, 0, [0x50, 0x4b, 5, 6]) && Holds(h, 4, Zeros(4)) && Holds(h, 8, U16(count)) && Holds(h, 10, U16(count))
    && Holds(h, 12, U32(size)) && Holds(h, 16, U32(offset)) && Holds(h, 20, Zeros(2))
  }

  lemma {:induction false} EndFields(count: nat, size: nat, offset: nat)
    ensures EndShape(EndRecord(count, size, offset), count, size, offset)
  {
    FixedNumbers();
    ZerosHold(22, 4, 4);
    ZerosHold(22, 20, 2);
    var h := EndLayout(Zeros(22), U32(END_SIGNATURE), U16(count), U32(size), U32(offset));
  }

  // ---------------------------------------------------------------- where the pieces are

  /** File `i`'s pieces begin where those of the earlier files end. */
  lemma {:induction false} NextPart(parts: seq<Part>, i: nat, done: seq<Part>, p: Part)
    requires i < |parts| && parts[..i + 1] == done + [p]
    ensures Locals(done) + p.header + p.data <= Locals(parts)
    ensures Centrals(done) + p.entry <= Centrals(parts)
  {
    LocalsPrefix(parts, i + 1);
    LocalsSnoc(done, p);
  }

  // ---------------------------------------------------------------- the round trip

  predicate Fits(e: Entry) {
    |e.name| < 0x1_0000 && |e.bytes| < 0x1_0000_0000 && e.crc < 0x1_0000_0000
  }

  lemma {:induction false} LocalNumbers(z: Data, at: nat, h: Data, e: Entry)
    requires Holds(z, at, h) && Fits(e) && LocalShape(h, e)
    ensures at + 30 + |e.name| <= |z| && Get32(z, at) == 0x04034b50 && Get16(z, at + 8) == 0
    ensures Get32(z, at + 14) == e.crc && Get32(z, at + 18) == |e.bytes| == Get32(z, at + 22)
    ensures Get16(z, at + 26) == |e.name| && Get16(z, at + 28) == 0 && Holds(z, at + 30, e.name)
  {
    FixedNumbers();
    Number32(z, at, h, 0, 0x04034b50);
    Unset(z, at, h, 8, 4, 8);
    Number32(z, at, h, 14, e.crc);
    Number32(z, at, h, 18, |e.bytes|);
    Number32(z, at, h, 22, |e.bytes|);
    Number16(z, at, h, 26, |e.name|);
    Unset(z, at, h, 28, 2, 28);
    Within(z, at, h, 30, e.name);
  }

  lemma {:induction false} CentralNumbers(z: Data, at: nat, h: Data, e: Entry, offset: nat)
    requires Holds(z, at, h) && Fits(e) && CentralShape(h, e, offset) && offset < 0x1_0000_0000
    ensures at + 46 + |e.name| <= |z| && Get32(z, at) == 0x02014b50 && Get16(z, at + 10) == 0
    ensures Get32(z, at + 16) == e.crc && Get32(z, at + 20) == |e.bytes| == Get32(z, at + 24)
    ensures Get16(z, at + 28) == |e.name| && Get16(z, at + 30) == 0 == Get16(z, at + 32)
    ensures Get32(z, at + 42) == offset && Holds(z, at + 46, e.name)
  {
    FixedNumbers();
    Number32(z, at, h, 0, 0x02014b50);
    Unset(z, at, h, 10, 4, 10);
    Number32(z, at, h, 16, e.crc);
    Number32(z, at, h, 20, |e.bytes|);
    Number32(z, at, h, 24, |e.bytes|);
    Number16(z, at, h, 28, |e.name|);
    Unset(z, at, h, 30, 12, 30);
    Unset(z, at, h, 30, 12, 32);
    Number32(z, at, h, 42, offset);
    Within(z, at, h, 46, e.name);
  }

  lemma {:induction false} EndNumbers(z: Data, at: nat, h: Data, count: nat, size: nat, offset: nat)
    requires Holds(z, at, h) && EndShape(h, count, size, offset)
    requires count < 0x1_0000 && size < 0x1_0000_0000 && offset < 0x1_0000_0000
    ensures at + 22 <= |z| && Get32(z, at) == 0x06054b50 && Get16(z, at + 8) == count == Get16(z, at + 10)
    ensures Get32(z, at + 12) == size && Get32(z, at + 16) == offset && Get16(z, at + 20) == 0
  {
    FixedNumbers();
    Number32(z, at, h, 0, 0x06054b50);
    Number16(z, at, h, 8, count);
    Number16(z, at, h, 10, count);
    Number32(z, at, h, 12, size);
    Number32(z, at, h, 16, offset);
    Unset(z, at, h, 20, 2, 20);
  }

  /** A reader that looks at `at` sees a local header of `e`. */
  ghost predicate HeaderSeen(z: Data, at: nat, e: Entry) {
    && at + 30 + |e.name| <= |z| && Get32(z, at) == 0x04034b50 && Get16(z, at + 8) == 0
    && Get32(z, at + 14) == e.crc && Get32(z, at + 18) == |e.bytes| == Get32(z, at + 22)
    && Get16(z, at + 26) == |e.name| && Get16(z, at + 28) == 0
    && z[at + 30..at + 30 + |e.name|] == e.name
  }

  /** Wherever `h` stands, a reader sees a local header of `e`. */
  ghost predicate Announces(h: Data, e: Entry) {
    |h| == 30 + |e.name| && forall z, at :: Holds(z, at, h) ==> HeaderSeen(z, at, e)
  }

  lemma {:induction false} HeaderShown(z: Data, at: nat, h: Data, e: Entry)
    requires Holds(z, at, h) && Fits(e) && LocalShape(h, e)
    ensures HeaderSeen(z, at, e)
  {
    LocalNumbers(z, at, h, e);
    HeldSlice(z, at + 30, e.name);
  }

  lemma {:induction false} HeaderAnnounces(e: Entry)
    requires Fits(e)
    ensures Announces(LocalHeader(e), e)
  {
    var h := LocalHeader(e);
    LocalFields(e);
    forall z, at | Holds(z, at, h) ensures HeaderSeen(z, at, e) {
      HeaderShown(z, at, h, e);
    }
  }

  /** A reader that looks at `at` sees a directory entry of `e` that points at `offset`. */
  ghost predicate EntrySeen(z: Data, at: nat, e: Entry, offset: nat) {
    && at + 46 + |e.name| <= |z| && Get32(z, at) == 0x02014b50 && Get16(z, at + 10) == 0
    && Get32(z, at + 16) == e.crc && Get32(z, at + 20) == |e.bytes| == Get32(z, at + 24)
    && Get16(z, at + 28) == |e.name| && Get16(z, at + 30) == 0 == Get16(z, at + 32)
    && Get32(z, at + 42) == offset && z[at + 46..at + 46 + |e.name|] == e.name
  }

  ghost predicate Lists(h: Data, e: Entry, offset: nat) {
    |h| == 46 + |e.name| && forall z, at :: Holds(z, at, h) ==> EntrySeen(z, at, e, offset)
  }

  lemma {:induction false} EntryShown(z: Data, at: nat, h: Data, e: Entry, offset: nat)
    requires Holds(z, at, h) && Fits(e) && offset < 0x1_0000_0000 && CentralShape(h, e, offset)
    ensures EntrySeen(z, at, e, offset)
  {
    CentralNumbers(z, at, h, e, offset);
    HeldSlice(z, at + 46, e.name);
  }

  lemma {:induction false} EntryLists(e: Entry, offset: nat)
    requires Fits(e) && offset < 0x1_0000_0000
    ensures Lists(CentralHeader(e, offset), e, offset)
  {
    var h := CentralHeader(e, offset);
    CentralFields(e, offset);
    forall z, at | Holds(z, at, h) ensures EntrySeen(z, at, e, offset) {
      EntryShown(z, at, h, e, offset);
    }
  }

  lemma {:induction false} LocalFound(z: Data, at: nat, e: Entry)
    requires HeaderSeen(z, at, e) && Holds(z, at + 30 + |e.name|, e.bytes)
    ensures LocalFile(z, at) == Some(File(e.name, e.bytes)) && Get32(z, at + 14) == e.crc
  {
    HeldSlice(z, at + 30 + |e.name|, e.bytes);
  }

  lemma {:induction false} LocalSeen(z: Data, front: Data, h: Data, e: Entry)
    requires front + h + e.bytes <= z && Announces(h, e)
    ensures LocalFile(z, |front|) == Some(File(e.name, e.bytes)) && Get32(z, |front| + 14) == e.crc
  {
    HoldsInside(z, front + h, e.bytes);
    assert front + h <= z;
    HoldsInside(z, front, h);
    LocalFound(z, |front|, e);
  }

  lemma {:induction false} LocalRead(z: Data, at: nat, e: Entry)
    requires LocalFile(z, at) == Some(File(e.name, e.bytes))
    requires Get32(z, at + 14) == e.crc == DivisionChecksum(e.bytes)
    ensures ReadLocal(z, at) == Some(File(e.name, e.bytes))
  {
  }

  lemma {:induction false} ReadsLocal(z: Data, front: Data, h: Data, e: Entry)
    requires front + h + e.bytes <= z && Announces(h, e) && e.crc == DivisionChecksum(e.bytes)
    ensures ReadLocal(z, |front|) == Some(File(e.name, e.bytes))
  {
    LocalSeen(z, front, h, e);
    LocalRead(z, |front|, e);
  }

  lemma {:induction false} EntryRead(z: Data, at: nat, end: nat, e: Entry, offset: nat)
    requires EntrySeen(z, at, e, offset) && e.crc == DivisionChecksum(e.bytes)
    requires at + 46 + |e.name| <= end <= |z|
    requires ReadLocal(z, offset) == Some(File(e.name, e.bytes))
    ensures ReadEntry(z, at, end) == Some(File(e.name, e.bytes)) && NextEntry(z, at) == at + 46 + |e.name|
  {
  }

  /** The three pieces that store `e` at `offset`. */
  ghost predicate Stores(p: Part, e: Entry, offset: nat) {
    p.data == e.bytes && Announces(p.header, e) && Lists(p.entry, e, offset) && e.crc == DivisionChecksum(e.bytes)
  }

  lemma {:induction false} PartStores(e: Entry, offset: nat)
    requires Fits(e) && offset < 0x1_0000_0000 && e.crc == DivisionChecksum(e.bytes)
    ensures Stores(PartOf(e, offset), e, offset)
  {
    HeaderAnnounces(e);
    EntryLists(e, offset);
  }

  lemma {:induction false} NextCentral(parts: seq<Part>, i: nat)
    requires i < |parts|
    ensures |Centrals(parts[..i + 1])| == |Centrals(parts[..i])| + |parts[i].entry| <= |Centrals(parts)|
  {
    assert parts[..i + 1] == parts[..i] + [parts[i]];
    LocalsSnoc(parts[..i], parts[i]);
    LocalsPrefix(parts, i + 1);
  }

  /** Where a reader finds directory entry `i`. */
  ghost function Place(parts: seq<Part>, i: nat): nat
    requires i <= |parts|
  {
    |Locals(parts)| + |Centrals(parts[..i])|
  }

  lemma {:induction false} ReadsStored(z: Data, parts: seq<Part>, i: nat, e: Entry)
    requires i < |parts| && Stores(parts[i], e, |Locals(parts[..i])|) && Locals(parts) <= z
    ensures ReadLocal(z, |Locals(parts[..i])|) == Some(File(e.name, e.bytes))
  {
    TakeNext(parts, i);
    NextPart(parts, i, parts[..i], parts[i]);
    var before := Locals(parts[..i]);
    Tail(z, [], Locals(parts), before + parts[i].header + parts[i].data);
    ReadsLocal(z, before, parts[i].header, e);
  }

  lemma {:induction false} HoldsDeep(z: Data, a: Data, b: Data, front: Data, h: Data)
    requires a + b <= z && front + h <= b
    ensures Holds(z, |a| + |front|, h)
  {
    Tail(z, a, b, front + h);
    Associate(a, front, h);
    HoldsInside(z, a + front, h);
  }

  lemma {:induction false} EntryStands(z: Data, parts: seq<Part>, i: nat)
    requires i < |parts| && Locals(parts) + Centrals(parts) <= z
    ensures Holds(z, Place(parts, i), parts[i].entry)
  {
    TakeNext(parts, i);
    NextPart(parts, i, parts[..i], parts[i]);
    HoldsDeep(z, Locals(parts), Centrals(parts), Centrals(parts[..i]), parts[i].entry);
  }

  lemma {:induction false} FindsFile(z: Data, parts: seq<Part>, i: nat, e: Entry)
    requires i < |parts| && Stores(parts[i], e, |Locals(parts[..i])|) && Locals(parts) + Centrals(parts) <= z
    ensures ReadLocal(z, |Locals(parts[..i])|) == Some(File(e.name, e.bytes))
  {
    Tail(z, [], Locals(parts) + Centrals(parts), Locals(parts));
    ReadsStored(z, parts, i, e);
  }

  lemma {:induction false} NextPlace(z: Data, parts: seq<Part>, i: nat)
    requires i < |parts| && Locals(parts) + Centrals(parts) <= z
    ensures Place(parts, i) + |parts[i].entry| == Place(parts, i + 1) <= |Locals(parts)| + |Centrals(parts)| <= |z|
  {
    NextCentral(parts, i);
  }

  /** The reader at `at`, where entry `h` of a file it can find stands. */
  lemma {:induction false} ReadsAt(z: Data, at: nat, end: nat, h: Data, e: Entry, offset: nat)
    requires Lists(h, e, offset) && Holds(z, at, h) && at + |h| <= end <= |z| && e.crc == DivisionChecksum(e.bytes)
    requires ReadLocal(z, offset) == Some(File(e.name, e.bytes))
    ensures ReadEntry(z, at, end) == Some(File(e.name, e.bytes)) && NextEntry(z, at) == at + |h|
  {
    EntryRead(z, at, end, e, offset);
  }

  lemma {:induction false} ReadsEntry(z: Data, parts: seq<Part>, i: nat, e: Entry, end: nat)
    requires i < |parts| && Stores(parts[i], e, |Locals(parts[..i])|)
    requires Locals(parts) + Centrals(parts) <= z && end == |Locals(parts)| + |Centrals(parts)|
    ensures Place(parts, i) + 46 <= |z| && ReadEntry(z, Place(parts, i), end) == Some(File(e.name, e.bytes))
    ensures NextEntry(z, Place(parts, i)) == Place(parts, i + 1)
  {
    var at, offset := Place(parts, i), |Locals(parts[..i])|;
    FindsFile(z, parts, i, e);
    EntryStands(z, parts, i);
    NextPlace(z, parts, i);
    ReadsAt(z, at, end, parts[i].entry, e, offset);
  }

  lemma {:induction false} ReadsOne(z: Data, at: nat, f: File, rest: seq<File>, end: nat)
    requires at + 46 <= |z| && end <= |z| && ReadEntry(z, at, end) == Some(f)
    requires ReadCentral(z, NextEntry(z, at), |rest|, end) == Some(rest)
    ensures ReadCentral(z, at, |rest| + 1, end) == Some([f] + rest)
  {
  }

  /** Reading entry after entry. */
  lemma {:induction false} ReadsCentral(z: Data, at: seq<nat>, files: seq<File>, end: nat)
    requires |at| == |files| + 1 && at[|files|] == end <= |z|
    requires forall i :: 0 <= i < |files| ==> at[i] + 46 <= |z| && ReadEntry(z, at[i], end) == Some(files[i])
    requires forall i :: 0 <= i < |files| ==> NextEntry(z, at[i]) == at[i + 1]
    ensures ReadCentral(z, at[0], |files|, end) == Some(files)
  {
    if files != [] {
      ReadsCentral(z, at[1..], files[1..], end);
      ReadsOne(z, at[0], files[0], files[1..], end);
      assert files == [files[0]] + files[1..];
    }
  }

  lemma {:induction false} PartsAt(entries: seq<Entry>, i: nat)
    requires i < |entries|
    ensures PartsOf(entries)[i] == PartOf(entries[i], |Locals(PartsOf(entries)[..i])|)
    decreases |entries|
  {
    var n := |entries| - 1;
    var front := PartsOf(entries[..n]);
    assert PartsOf(entries) == front + [PartOf(entries[n], |Locals(front)|)];
    assert PartsOf(entries)[..i] == front[..i];
    if i < n { PartsAt(entries[..n], i); }
  }

  lemma {:induction false} StoredAt(files: seq<File>, i: nat)
    requires i < |files| && ShortNames(files) && |Locals(PartsOf(EntriesOf(files)))| < 0x1_0000_0000
    ensures Stores(PartsOf(EntriesOf(files))[i], EntryOf(files[i]), |Locals(PartsOf(EntriesOf(files))[..i])|)
  {
    var entries := EntriesOf(files);
    var parts := PartsOf(entries);
    EntryAt(files, i);
    Crc32IsDivision(files[i].bytes);
    PartsAt(entries, i);
    TakeNext(parts, i);
    NextPart(parts, i, parts[..i], parts[i]);
    PartStores(entries[i], |Locals(parts[..i])|);
  }

  ghost function Places(parts: seq<Part>, n: nat): (at: seq<nat>)
    requires n <= |parts|
    ensures |at| == n + 1 && forall i :: 0 <= i <= n ==> at[i] == Place(parts, i)
  {
    if n == 0 then [Place(parts, 0)] else Places(parts, n - 1) + [Place(parts, n)]
  }

  lemma {:induction false} WholeEntries(parts: seq<Part>)
    ensures Place(parts, 0) == |Locals(parts)| && Place(parts, |parts|) == |Locals(parts)| + |Centrals(parts)|
  {
    assert parts[..|parts|] == parts;
  }

  lemma {:induction false} ReadsDirectory(z: Data, parts: seq<Part>, files: seq<File>, end: nat)
    requires |parts| == |files| && Locals(parts) + Centrals(parts) <= z && end == |Locals(parts)| + |Centrals(parts)|
    requires forall i :: 0 <= i < |files| ==> Stores(parts[i], EntryOf(files[i]), |Locals(parts[..i])|)
    ensures ReadCentral(z, |Locals(parts)|, |files|, end) == Some(files)
  {
    var at := Places(parts, |parts|);
    WholeEntries(parts);
    forall i | 0 <= i < |files|
      ensures at[i] + 46 <= |z| && ReadEntry(z, at[i], end) == Some(files[i]) && NextEntry(z, at[i]) == at[i + 1]
    {
      ReadsEntry(z, parts, i, EntryOf(files[i]), end);
    }
    ReadsCentral(z, at, files, end);
  }

  /** A reader that looks at `at` sees an end record. */
  ghost predicate EndSeen(z: Data, at: nat, count: nat, size: nat, offset: nat) {
    && at + 22 <= |z| && Get32(z, at) == 0x06054b50 && Get16(z, at + 8) == count == Get16(z, at + 10)
    && Get32(z, at + 12) == size && Get32(z, at + 16) == offset && Get16(z, at + 20) == 0
  }

  /** Wherever `h` stands, a reader sees an end record. */
  ghost predicate Ends(h: Data, count: nat, size: nat, offset: nat) {
    |h| == 22 && forall z, at :: Holds(z, at, h) ==> EndSeen(z, at, count, size, offset)
  }

  const WRAP := 0x1_0000_0000

  /** The end record stores the size and the offset of the directory modulo 2^32. */
  lemma {:induction false} RecordEnds(count: nat, size: nat, offset: nat)
    requires count < 0x1_0000
    ensures Ends(EndRecord(count, size, offset), count, size % WRAP, offset % WRAP)
  {
    var h := EndRecord(count, size, offset);
    EndFields(count, size, offset);
    Wraps(size);
    Wraps(offset);
    forall z, at | Holds(z, at, h) ensures EndSeen(z, at, count, size % WRAP, offset % WRAP) {
      EndNumbers(z, at, h, count, size % WRAP, offset % WRAP);
    }
  }

  lemma {:induction false} ReadsRecord(z: Data, e: nat, count: nat, size: nat, offset: nat)
    requires e + 22 == |z| && EndSeen(z, e, count, size, offset) && offset + size == e
    ensures ReadArchive(z) == ReadCentral(z, offset, count, e)
  {
  }

  lemma {:induction false} RefusesRecord(z: Data, e: nat, count: nat, size: nat, offset: nat)
    requires e + 22 == |z| && EndSeen(z, e, count, size, offset) && offset + size != e
    ensures ReadArchive(z) == None
  {
  }

  lemma {:induction false} EndRead(front: Data, h: Data, count: nat, size: nat, offset: nat)
    requires Ends(h, count, size, offset)
    ensures ReadArchive(front + h) ==
      if offset + size == |front| then ReadCentral(front + h, offset, count, |front|) else None
  {
    HoldsInside(front + h, front, h);
    if offset + size == |front| {
      ReadsRecord(front + h, |front|, count, size, offset);
    } else {
      RefusesRecord(front + h, |front|, count, size, offset);
    }
  }

  lemma WrapsDown(a: nat, b: nat)
    ensures a % WRAP + b % WRAP == a + b <==> a < WRAP && b < WRAP
    ensures a < WRAP ==> a % WRAP == a
  {
    assert a % WRAP <= a && b % WRAP <= b;
    assert a % WRAP < WRAP && b % WRAP < WRAP;
    if a < WRAP { assert a % WRAP == a; }
    if b < WRAP { assert b % WRAP == b; }
  }

  lemma SmallRecordEnds(count: nat, size: nat, offset: nat)
    requires count < 0x1_0000 && size < WRAP && offset < WRAP
    ensures Ends(EndRecord(count, size, offset), count, size, offset)
  {
    RecordEnds(count, size, offset);
    WrapsDown(size, offset);
    WrapsDown(offset, size);
  }

  lemma {:induction false} ReadsEnd(front: Data, count: nat, size: nat, offset: nat)
    requires count < 0x1_0000 && size < WRAP && offset < WRAP && offset + size == |front|
    ensures ReadArchive(front + EndRecord(count, size, offset)) ==
      ReadCentral(front + EndRecord(count, size, offset), offset, count, |front|)
  {
    SmallRecordEnds(count, size, offset);
    EndRead(front, EndRecord(count, size, offset), count, size, offset);
  }

  /** Numbers that have wrapped do not add up to where the record stands. */
  lemma {:induction false} RefusesEnd(front: Data, count: nat, size: nat, offset: nat)
    requires count < 0x1_0000 && offset + size == |front| && !(size < WRAP && offset < WRAP)
    ensures ReadArchive(front + EndRecord(count, size, offset)) == None
  {
    RecordEnds(count, size, offset);
    WrapsDown(size, offset);
    var h, stored, start := EndRecord(count, size, offset), size % WRAP, offset % WRAP;
    EndRead(front, h, count, stored, start);
  }

  lemma {:induction false} ReadsParts(parts: seq<Part>, files: seq<File>)
    requires |parts| == |files| <= MAX_FILES && |Locals(parts)| < WRAP && |Centrals(parts)| < WRAP
    requires forall i :: 0 <= i < |files| ==> Stores(parts[i], EntryOf(files[i]), |Locals(parts[..i])|)
    ensures ReadArchive(ArchiveOf(parts)) == Some(files)
  {
    var front := Locals(parts) + Centrals(parts);
    ReadsDirectory(ArchiveOf(parts), parts, files, |front|);
    ReadsEnd(front, |parts|, |Centrals(parts)|, |Locals(parts)|);
  }

  lemma {:induction false} RefusesParts(parts: seq<Part>)
    requires |parts| <= MAX_FILES && |Locals(parts)| >= WRAP
    ensures ReadArchive(ArchiveOf(parts)) == None
  {
    RefusesEnd(Locals(parts) + Centrals(parts), |parts|, |Centrals(parts)|, |Locals(parts)|);
  }

  lemma {:induction false} DirectoryIsSmall(entries: seq<Entry>)
    requires forall e :: e in entries ==> |e.name| < 0x1_0000
    ensures |Centrals(PartsOf(entries))| <= |entries| * 0x1_002E
    decreases |entries|
  {
    if entries != [] {
      var front, last := entries[..|entries| - 1], entries[|entries| - 1];
      DirectoryIsSmall(front);
      var p := PartOf(last, |Locals(PartsOf(front))|);
      LocalsSnoc(PartsOf(front), p);
    }
  }

  lemma {:induction false} NamesOf(files: seq<File>)
    requires ShortNames(files)
    ensures forall e :: e in EntriesOf(files) ==> |e.name| < 0x1_0000
  {
    forall i | 0 <= i < |files| ensures |EntriesOf(files)[i].name| < 0x1_0000 { EntryAt(files, i); }
  }

  lemma {:induction false} ReadsAll(files: seq<File>)
    requires |files| <= 100 && ShortNames(files) && |Locals(PartsOf(EntriesOf(files)))| < WRAP
    ensures ReadArchive(Archive(EntriesOf(files))) == Some(files)
  {
    var parts := PartsOf(EntriesOf(files));
    forall i | 0 <= i < |files| ensures Stores(parts[i], EntryOf(files[i]), |Locals(parts[..i])|) {
      StoredAt(files, i);
    }
    NamesOf(files);
    DirectoryIsSmall(EntriesOf(files));
    ReadsParts(parts, files);
  }

  /**
   What is read back from the archive that `zipFiles` writes is what was stored: the same names, bytes
   and checksums in the same order, with every stored offset and size right. This holds exactly when no name
   outgrows its 16-bit length field and the headers and data before the directory stay below 4 GiB.
   */
  lemma {:induction false} RoundTrip(files: seq<File>)
    requires |files| <= 100
    ensures ReadArchive(Archive(EntriesOf(files))) == Some(files) <==>
            ShortNames(files) && |Locals(PartsOf(EntriesOf(files)))| < WRAP
  {
    var parts := PartsOf(EntriesOf(files));
    if |Locals(parts)| >= WRAP {
      RefusesParts(parts);
    } else if ShortNames(files) {
      ReadsAll(files);
    }
  }
}
