/**
 The STORE-only ZIP writer, with the layouts of sections 4.3.7, 4.3.12 and 4.3.16 of PKWARE
 APPNOTE.TXT.
 */
module Zip {
  import opened Common
  import opened Crc

  const MAX_FILES := 100
  const LOCAL_SIGNATURE := 0x04034b50
  const CENTRAL_SIGNATURE := 0x02014b50
  const END_SIGNATURE := 0x06054b50
  const VERSION := 20
  const UTF8_NAMES := 0x800
  const EPOCH_DATE := 0x21

  /** A file to store; its name is already encoded as UTF-8. */
  datatype File = File(name: Data, bytes: Data)

  /** A file as the archive describes it. */
  datatype Entry = Entry(name: Data, bytes: Data, crc: nat)

  /** The checksum as the number stored in the headers. */
  function Checksum(bytes: Data): (n: nat)
    ensures n < 0x1_0000_0000
  {
    WordPower();
    Unsigned(Crc32(Bits(bytes)), 32)
  }

  function EntryOf(f: File): (e: Entry)
    ensures e.name == f.name && e.bytes == f.bytes
  {
    Entry(f.name, f.bytes, Checksum(f.bytes))
  }

  function EntriesOf(files: seq<File>): (entries: seq<Entry>)
    ensures |entries| == |files|
  {
    if files == [] then [] else [EntryOf(files[0])] + EntriesOf(files[1..])
  }

  lemma {:induction false} EntryAt(files: seq<File>, i: nat)
    requires i < |files|
    ensures EntriesOf(files)[i] == EntryOf(files[i])
  {
    if i > 0 { EntryAt(files[1..], i - 1); }
  }

  lemma TakeNext<T>(s: seq<T>, i: nat)
    requires i < |s|
    ensures s[..i + 1] == s[..i] + [s[i]]
  {
  }

  // ---------------------------------------------------------------- little-endian numbers

  function LowByte(n: nat): Byte {
    (n % 256) as Byte
  }

  /** What `setUint16(…, true)` stores: the value modulo 2^16, low byte first. */
  function U16(n: nat): (b: Data)
    ensures |b| == 2
  {
    [LowByte(n), LowByte(n / 256)]
  }

  /** What `setUint32(…, true)` stores: the value modulo 2^32, low byte first. */
  function U32(n: nat): (b: Data)
    ensures |b| == 4
  {
    U16(n) + U16(n / 65536)
  }

  // ---------------------------------------------------------------- the records

  /** `b` written over `s` from position `at`. */
  function Put(s: Data, at: nat, b: Data): (r: Data)
    requires at + |b| <= |s|
    ensures |r| == |s|
    decreases |b|
  {
    if b == [] then s else Put(s[at := b[0]], at + 1, b[1..])
  }

  lemma {:induction false} PutAt(s: Data, at: nat, b: Data, i: nat)
    requires at + |b| <= |s| && i < |s|
    ensures Put(s, at, b)[i] == if at <= i < at + |b| then b[i - at] else s[i]
    decreases |b|
  {
    if b != [] { PutAt(s[at := b[0]], at + 1, b[1..], i); }
  }

  function Zeros(n: nat): (r: Data)
    ensures |r| == n && forall i :: 0 <= i < n ==> r[i] == 0
  {
    if n == 0 then [] else [0] + Zeros(n - 1)
  }

  /** Section 4.3.7: the local header. */
  function LocalHeader(f: Entry): (h: Data)
    ensures |h| == 30 + |f.name|
  {
    var h := Put(Zeros(30 + |f.name|), 0, U32(LOCAL_SIGNATURE));
    var h := Put(Put(Put(h, 4, U16(VERSION)), 6, U16(UTF8_NAMES)), 12, U16(EPOCH_DATE));
    var h := Put(Put(Put(h, 14, U32(f.crc)), 18, U32(|f.bytes|)), 22, U32(|f.bytes|));
    Put(Put(h, 26, U16(|f.name|)), 30, f.name)
  }

  /** Section 4.3.12: the directory entry. */
  function CentralHeader(f: Entry, offset: nat): (h: Data)
    ensures |h| == 46 + |f.name|
  {
    var h := Put(Put(Zeros(46 + |f.name|), 0, U32(CENTRAL_SIGNATURE)), 4, U16(VERSION));
    var h := Put(Put(Put(h, 6, U16(VERSION)), 8, U16(UTF8_NAMES)), 14, U16(EPOCH_DATE));
    var h := Put(Put(Put(h, 16, U32(f.crc)), 20, U32(|f.bytes|)), 24, U32(|f.bytes|));
    Put(Put(Put(h, 28, U16(|f.name|)), 42, U32(offset)), 46, f.name)
  }

  /** Section 4.3.16: the end record. */
  function EndRecord(count: nat, centralSize: nat, offset: nat): (h: Data)
    ensures |h| == 22
  {
    var h := Put(Put(Put(Zeros(22), 0, U32(END_SIGNATURE)), 8, U16(count)), 10, U16(count));
    Put(Put(h, 12, U32(centralSize)), 16, U32(offset))
  }

  // ---------------------------------------------------------------- the archive

  /** What one file adds to the archive. */
  datatype Part = Part(header: Data, data: Data, entry: Data)

  function PartOf(f: Entry, offset: nat): Part {
    Part(LocalHeader(f), f.bytes, CentralHeader(f, offset))
  }

  /** Every file's local header and data, in order. */
  function Locals(parts: seq<Part>): Data
    decreases |parts|
  {
    if parts == [] then []
    else
      var n := |parts| - 1;
      Locals(parts[..n]) + parts[n].header + parts[n].data
  }

  /** The central directory. */
  function Centrals(parts: seq<Part>): Data
    decreases |parts|
  {
    if parts == [] then []
    else
      var n := |parts| - 1;
      Centrals(parts[..n]) + parts[n].entry
  }

  /** Each file's part: its directory entry points at where its local header begins. */
  function PartsOf(files: seq<Entry>): (parts: seq<Part>)
    ensures |parts| == |files|
    decreases |files|
  {
    if files == [] then []
    else
      var n := |files| - 1;
      PartsOf(files[..n]) + [PartOf(files[n], |Locals(PartsOf(files[..n]))|)]
  }

  function ArchiveOf(parts: seq<Part>): Data {
    Locals(parts) + Centrals(parts) + EndRecord(|parts|, |Centrals(parts)|, |Locals(parts)|)
  }

  function Archive(files: seq<Entry>): Data {
    ArchiveOf(PartsOf(files))
  }

  // ---------------------------------------------------------------- the writer

  /** Copies all of `b` into `h` from position `at`, as `Uint8Array.set` does. */
  method Set(h: array<Byte>, at: nat, b: Data)
    requires at + |b| <= h.Length
    modifies h
    ensures h[..] == Put(old(h[..]), at, b)
  {
    for i := 0 to |b|
      invariant Put(h[..], at + i, b[i..]) == Put(old(h[..]), at, b)
    {
      ghost var before := h[..];
      h[at + i] := b[i];
      assert h[..] == before[at + i := b[i]] && b[i..][1..] == b[i + 1..];
    }
  }

  method SetUint16(h: array<Byte>, at: nat, n: nat)
    requires at + 2 <= h.Length
    modifies h
    ensures h[..] == Put(old(h[..]), at, U16(n))
  {
    Set(h, at, U16(n));
  }

  method SetUint32(h: array<Byte>, at: nat, n: nat)
    requires at + 4 <= h.Length
    modifies h
    ensures h[..] == Put(old(h[..]), at, U32(n))
  {
    Set(h, at, U32(n));
  }

  method NewBuffer(n: nat) returns (h: array<Byte>)
    ensures fresh(h) && h[..] == Zeros(n)
  {
    h := new Byte[n](_ => 0);
  }

  method WriteLocalHeader(f: Entry) returns (header: Data)
    ensures header == LocalHeader(f)
  {
    var v := NewBuffer(30 + |f.name|);
    SetUint32(v, 0, LOCAL_SIGNATURE);
    SetUint16(v, 4, VERSION);
    SetUint16(v, 6, UTF8_NAMES);
    SetUint16(v, 12, EPOCH_DATE);
    SetUint32(v, 14, f.crc);
    SetUint32(v, 18, |f.bytes|);
    SetUint32(v, 22, |f.bytes|);
    SetUint16(v, 26, |f.name|);
    Set(v, 30, f.name);
    header := v[..];
  }

  method WriteCentralHeader(f: Entry, offset: nat) returns (entry: Data)
    ensures entry == CentralHeader(f, offset)
  {
    var e := NewBuffer(46 + |f.name|);
    SetUint32(e, 0, CENTRAL_SIGNATURE);
    SetUint16(e, 4, VERSION);
    SetUint16(e, 6, VERSION);
    SetUint16(e, 8, UTF8_NAMES);
    SetUint16(e, 14, EPOCH_DATE);
    SetUint32(e, 16, f.crc);
    SetUint32(e, 20, |f.bytes|);
    SetUint32(e, 24, |f.bytes|);
    SetUint16(e, 28, |f.name|);
    SetUint32(e, 42, offset);
    Set(e, 46, f.name);
    entry := e[..];
  }

  method WriteEndRecord(count: nat, centralSize: nat, offset: nat) returns (record: Data)
    ensures record == EndRecord(count, centralSize, offset)
  {
    var v := NewBuffer(22);
    SetUint32(v, 0, END_SIGNATURE);
    SetUint16(v, 8, count);
    SetUint16(v, 10, count);
    SetUint32(v, 12, centralSize);
    SetUint32(v, 16, offset);
    record := v[..];
  }

  function Flat(parts: seq<Data>): Data {
    if parts == [] then [] else parts[0] + Flat(parts[1..])
  }

  lemma {:induction false} FlatAppend(parts: seq<Data>, more: seq<Data>)
    ensures Flat(parts + more) == Flat(parts) + Flat(more)
  {
    if parts == [] {
      assert parts + more == more;
    } else {
      assert (parts + more)[1..] == parts[1..] + more;
      FlatAppend(parts[1..], more);
      Associate(parts[0], Flat(parts[1..]), Flat(more));
    }
  }

  lemma {:induction false} FlatSnoc(parts: seq<Data>, b: Data)
    ensures Flat(parts + [b]) == Flat(parts) + b
  {
    FlatAppend(parts, [b]);
    assert Flat([b]) == b;
  }

  /** The final copy loop of `zipFiles`. */
  method Concatenate(parts: seq<Data>, size: nat) returns (out: array<Byte>)
    requires |Flat(parts)| == size
    ensures fresh(out) && out[..] == Flat(parts)
  {
    out := new Byte[size](_ => 0);
    var at: nat := 0;
    for i := 0 to |parts|
      invariant fresh(out) && out.Length == size
      invariant at + |Flat(parts[i..])| == size
      invariant out[..at] + Flat(parts[i..]) == Flat(parts)
    {
      assert parts[i..][1..] == parts[i + 1..];
      Associate(out[..at], parts[i], Flat(parts[i + 1..]));
      ghost var before := out[..];
      Set(out, at, parts[i]);
      forall j | 0 <= j < at + |parts[i]| ensures out[j] == if j < at then before[j] else parts[i][j - at] {
        PutAt(before, at, parts[i], j);
      }
      assert out[..at + |parts[i]|] == before[..at] + parts[i];
      at := at + |parts[i]|;
    }
    assert out[..] == out[..at];
  }

  datatype ZipError = TooManyFiles

  lemma {:induction false} LocalsSnoc(done: seq<Part>, p: Part)
    ensures Locals(done + [p]) == Locals(done) + p.header + p.data
    ensures Centrals(done + [p]) == Centrals(done) + p.entry
  {
    var parts := done + [p];
    assert parts[..|parts| - 1] == done && parts[|parts| - 1] == p;
  }

  lemma {:induction false} PartsSnoc(done: seq<Entry>, f: Entry)
    ensures PartsOf(done + [f]) == PartsOf(done) + [PartOf(f, |Locals(PartsOf(done))|)]
  {
    var files := done + [f];
    assert files[..|files| - 1] == done && files[|files| - 1] == f;
  }

  /** What the writer has collected: the pieces, how long they are, and where the next file goes. */
  datatype Pieces = Pieces(local: seq<Data>, central: seq<Data>, offset: nat, centralSize: nat) {
    ghost predicate Describe(done: seq<Part>) {
      && Flat(local) == Locals(done) && offset == |Locals(done)|
      && Flat(central) == Centrals(done) && centralSize == |Centrals(done)|
    }
  }

  /** The pieces grow by a file's own. */
  method AddPart(ghost done: seq<Part>, p: Pieces, header: Data, data: Data, entry: Data) returns (q: Pieces)
    requires p.Describe(done)
    ensures q.Describe(done + [Part(header, data, entry)])
  {
    FlatSnoc(p.local, header);
    FlatSnoc(p.local + [header], data);
    FlatSnoc(p.central, entry);
    LocalsSnoc(done, Part(header, data, entry));
    q := Pieces(p.local + [header] + [data], p.central + [entry],
                p.offset + |header| + |data|, p.centralSize + |entry|);
  }

  /** One turn of the writer's loop: the next file's header, data and directory entry. */
  method AddFile(ghost done: seq<Entry>, p: Pieces, f: Entry) returns (q: Pieces)
    requires p.Describe(PartsOf(done))
    ensures q.Describe(PartsOf(done + [f]))
  {
    var header := WriteLocalHeader(f);
    var entry := WriteCentralHeader(f, p.offset);
    q := AddPart(PartsOf(done), p, header, f.bytes, entry);
    PartsSnoc(done, f);
  }

  /** The end record and the copy of every piece into the result. */
  method Assemble(ghost parts: seq<Part>, count: nat, p: Pieces) returns (result: Data)
    requires count == |parts| && p.Describe(parts)
    ensures result == ArchiveOf(parts)
  {
    var end := WriteEndRecord(count, p.centralSize, p.offset);
    FlatAppend(p.local, p.central);
    FlatSnoc(p.local + p.central, end);
    var out := Concatenate(p.local + p.central + [end], p.offset + p.centralSize + |end|);
    result := out[..];
  }

  method DescribeFile(f: File) returns (e: Entry)
    ensures e == EntryOf(f)
  {
    var crc := ComputeCrc32(f.bytes);
    e := Entry(f.name, f.bytes, crc);
  }

  method Describe(files: seq<File>, i: nat) returns (e: Entry)
    requires i < |files|
    ensures EntriesOf(files)[..i] + [e] == EntriesOf(files)[..i + 1]
  {
    e := DescribeFile(files[i]);
    EntryAt(files, i);
    TakeNext(EntriesOf(files), i);
  }

  /** `zipFiles`. */
  method ZipFiles(files: seq<File>) returns (r: Result<Data, ZipError>)
    ensures r == if |files| > 100 then Err(TooManyFiles) else Ok(Archive(EntriesOf(files)))
  {
    if |files| > MAX_FILES { return Err(TooManyFiles); }
    var pieces := Pieces([], [], 0, 0);
    ghost var entries := EntriesOf(files);
    for i := 0 to |files|
      invariant pieces.Describe(PartsOf(entries[..i]))
    {
      var f := Describe(files, i);
      pieces := AddFile(entries[..i], pieces, f);
    }
    assert entries[..|files|] == entries;
    var result := Assemble(PartsOf(entries), |files|, pieces);
    r := Ok(result);
  }
}
