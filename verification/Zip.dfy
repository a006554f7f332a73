/** The archive writer: stored entries, a central directory and an end record
    (sections 4.3.7, 4.3.12 and 4.3.16 of PKWARE APPNOTE.TXT), and a reader that
    starts from the end record. Names and contents are bytes. */
module Zip {
  import opened Common
  import opened Crc32

  datatype Entry = Entry(name: seq<byte>, data: seq<byte>)

  const MAX16: nat := 0xffff
  const MAX32: nat := 0xffff_ffff

  // ---- little-endian fields ----

  function Byte(n: nat, k: nat): byte {
    if k == 0 then n % 256 else Byte(n / 256, k - 1)
  }

  function U16At(s: seq<byte>, p: nat): nat
    requires p + 2 <= |s|
  {
    s[p] as nat + 256 * (s[p + 1] as nat)
  }

  function U32At(s: seq<byte>, p: nat): nat
    requires p + 4 <= |s|
  {
    s[p] as nat + 256 * (s[p + 1] as nat + 256 * (s[p + 2] as nat + 256 * (s[p + 3] as nat)))
  }

  /** Two bytes, low one first, are read back as the number written. */
  lemma U16Back(s: seq<byte>, p: nat, n: nat)
    requires n <= MAX16 && p + 2 <= |s| && s[p] == Byte(n, 0) && s[p + 1] == Byte(n, 1)
    ensures U16At(s, p) == n
  {
    assert Byte(n, 1) == Byte(n / 256, 0);
  }

  lemma U32Back(s: seq<byte>, p: nat, n: nat)
    requires n <= MAX32 && p + 4 <= |s|
    requires s[p] == Byte(n, 0) && s[p + 1] == Byte(n, 1) && s[p + 2] == Byte(n, 2) && s[p + 3] == Byte(n, 3)
    ensures U32At(s, p) == n
  {
    var a, b, c := n / 256, n / 256 / 256, n / 256 / 256 / 256;
    assert Byte(n, 1) == Byte(a, 0);
    assert Byte(n, 2) == Byte(a, 1) == Byte(b, 0);
    assert Byte(n, 3) == Byte(a, 2) == Byte(b, 1) == Byte(c, 0);
  }

  function Crc(data: seq<byte>): (r: nat)
    ensures r <= MAX32
  {
    Checksum(data) as nat
  }

  // ---- headers ----

  const LOCAL_SIGNATURE: nat := 0x04034b50
  const CENTRAL_SIGNATURE: nat := 0x02014b50
  const END_SIGNATURE: nat := 0x06054b50

  /** A 16-bit or a 32-bit number. */
  datatype Field = W16(n: nat) | W32(n: nat)

  predicate FieldFits(f: Field) { f.n <= if f.W16? then MAX16 else MAX32 }

  function Width(f: Field): nat { if f.W16? then 2 else 4 }

  function FieldBytes(f: Field): (r: seq<byte>)
    ensures |r| == Width(f)
  {
    if f.W16? then [Byte(f.n, 0), Byte(f.n, 1)] else [Byte(f.n, 0), Byte(f.n, 1), Byte(f.n, 2), Byte(f.n, 3)]
  }

  /** Where field `k` starts. */
  function Offset(fields: seq<Field>, k: nat): nat
    requires k <= |fields|
  {
    if k == 0 then 0 else Offset(fields, k - 1) + Width(fields[k - 1])
  }

  function Bytes(fields: seq<Field>): (r: seq<byte>)
    ensures |r| == Offset(fields, |fields|)
  {
    if fields == [] then []
    else
      var n := |fields| - 1;
      OffsetInPrefix(fields, n, n);
      Bytes(fields[..n]) + FieldBytes(fields[n])
  }

  lemma {:induction false} OffsetInPrefix(fields: seq<Field>, n: nat, k: nat)
    requires k <= n <= |fields|
    ensures Offset(fields[..n], k) == Offset(fields, k)
  {
    if k > 0 {
      OffsetInPrefix(fields, n, k - 1);
    }
  }

  /** Signature, version 2.0, UTF-8 flag, stored, time, date 1980-01-01, checksum,
      both sizes, length of the name, of the extra field. */
  function LocalFields(e: Entry): seq<Field> {
    [W32(LOCAL_SIGNATURE), W16(20), W16(0x0800), W16(0), W16(0), W16(0x21),
     W32(Crc(e.data)), W32(|e.data|), W32(|e.data|), W16(|e.name|), W16(0)]
  }

  /** The same with two versions; then the lengths of extra field and comment, the
      disk, attributes, and the offset of the local header. */
  function CentralFields(e: Entry, offset: nat): seq<Field> {
    [W32(CENTRAL_SIGNATURE), W16(20), W16(20), W16(0x0800), W16(0), W16(0), W16(0x21),
     W32(Crc(e.data)), W32(|e.data|), W32(|e.data|), W16(|e.name|), W16(0), W16(0), W16(0), W16(0), W32(0), W32(offset)]
  }

  /** Signature, two disks, the number of entries twice, size and offset of the
      directory, length of the comment. */
  function EndFields(count: nat, size: nat, offset: nat): seq<Field> {
    [W32(END_SIGNATURE), W16(0), W16(0), W16(count), W16(count), W32(size), W32(offset), W16(0)]
  }

  function LocalHeader(e: Entry): (h: seq<byte>)
    ensures |h| == 30
  {
    LocalOffsets(e);
    Bytes(LocalFields(e))
  }

  function CentralHeader(e: Entry, offset: nat): (h: seq<byte>)
    ensures |h| == 46
  {
    CentralOffsets(e, offset);
    Bytes(CentralFields(e, offset))
  }

  function EndRecord(count: nat, size: nat, offset: nat): (h: seq<byte>)
    ensures |h| == 22
  {
    EndOffsets(count, size, offset);
    Bytes(EndFields(count, size, offset))
  }

  /** Offsets of four consecutive fields. */
  lemma FourOffsets(f: seq<Field>, k: nat)
    requires k + 4 <= |f|
    ensures Offset(f, k + 1) == Offset(f, k) + Width(f[k])
    ensures Offset(f, k + 2) == Offset(f, k + 1) + Width(f[k + 1])
    ensures Offset(f, k + 3) == Offset(f, k + 2) + Width(f[k + 2])
    ensures Offset(f, k + 4) == Offset(f, k + 3) + Width(f[k + 3])
  {
  }

  lemma NoOffset(f: seq<Field>)
    ensures Offset(f, 0) == 0
  {
  }

  lemma LocalOffsets(e: Entry)
    ensures var f := LocalFields(e);
            && Offset(f, 0) == 0 && Offset(f, 3) == 8 && Offset(f, 6) == 14 && Offset(f, 7) == 18 && Offset(f, 8) == 22
            && Offset(f, 9) == 26 && Offset(f, 10) == 28 && Offset(f, 11) == 30
  {
    hide Offset, Crc;
    var f := LocalFields(e);
    NoOffset(f);
    FourOffsets(f, 0);
    FourOffsets(f, 4);
    FourOffsets(f, 7);
  }

  lemma CentralOffsets(e: Entry, offset: nat)
    ensures var f := CentralFields(e, offset);
            && Offset(f, 0) == 0 && Offset(f, 4) == 10 && Offset(f, 7) == 16 && Offset(f, 8) == 20 && Offset(f, 9) == 24
            && Offset(f, 10) == 28 && Offset(f, 11) == 30 && Offset(f, 12) == 32 && Offset(f, 16) == 42
            && Offset(f, 17) == 46
  {
    hide Offset, Crc;
    var f := CentralFields(e, offset);
    NoOffset(f);
    FourOffsets(f, 0);
    FourOffsets(f, 4);
    FourOffsets(f, 8);
    FourOffsets(f, 12);
    FourOffsets(f, 13);
  }

  lemma EndOffsets(count: nat, size: nat, offset: nat)
    ensures var f := EndFields(count, size, offset);
            && Offset(f, 0) == 0 && Offset(f, 3) == 8 && Offset(f, 4) == 10 && Offset(f, 5) == 12 && Offset(f, 6) == 16
            && Offset(f, 8) == 22
  {
    hide Offset;
    var f := EndFields(count, size, offset);
    NoOffset(f);
    FourOffsets(f, 0);
    FourOffsets(f, 4);
  }

  function LocalRecord(e: Entry): seq<byte> { LocalHeader(e) + (e.name + e.data) }

  function CentralRecord(e: Entry, offset: nat): seq<byte> { CentralHeader(e, offset) + e.name }

  function Locals(entries: seq<Entry>): seq<byte> {
    if entries == [] then [] else Locals(entries[..|entries| - 1]) + LocalRecord(entries[|entries| - 1])
  }

  function Directory(entries: seq<Entry>): seq<byte> {
    if entries == [] then []
    else
      var n := |entries| - 1;
      Directory(entries[..n]) + CentralRecord(entries[n], |Locals(entries[..n])|)
  }

  function Archive(entries: seq<Entry>): seq<byte> {
    Locals(entries) + (Directory(entries) + EndRecord(|entries|, |Directory(entries)|, |Locals(entries)|))
  }

  /** Every number fits its header field. */
  predicate Fits(entries: seq<Entry>) {
    && |entries| <= MAX16 && |Locals(entries)| <= MAX32 && |Directory(entries)| <= MAX32
    && forall k :: 0 <= k < |entries| ==> |entries[k].name| <= MAX16
  }

  /** At most 65535 entries, names of at most 65535 bytes, and no more bytes before and
      in the directory than 32 bits can count: then all sizes and offsets fit. */
  lemma FitsIff(entries: seq<Entry>)
    ensures Fits(entries) <==>
            && |entries| < 0x1_0000 && |Locals(entries)| < 0x1_0000_0000 && |Directory(entries)| < 0x1_0000_0000
            && forall k :: 0 <= k < |entries| ==> |entries[k].name| < 0x1_0000
    ensures Fits(entries) ==> forall k :: 0 <= k < |entries| ==> |entries[k].data| <= |Locals(entries)|
  {
    hide Locals, Directory;
    forall k | 0 <= k < |entries|
      ensures |entries[k].data| <= |Locals(entries)|
    {
      DataInLocals(entries, k);
    }
  }

  lemma {:induction false} DataInLocals(entries: seq<Entry>, k: nat)
    requires k < |entries|
    ensures |entries[k].data| <= |Locals(entries)|
  {
    hide LocalHeader;
    if k < |entries| - 1 {
      DataInLocals(entries[..|entries| - 1], k);
    }
  }

  // ---- reading ----

  /** The local header, name and contents at `at` that a directory record with
      this name, checksum and size points to. */
  function ReadLocal(file: seq<byte>, at: nat, name: seq<byte>, crc: nat, size: nat): Option<Entry> {
    if at + 30 > |file| || U32At(file, at) != LOCAL_SIGNATURE || U16At(file, at + 8) != 0 then None
    else
      var length, extra := U16At(file, at + 26), U16At(file, at + 28);
      var start := at + 30 + length + extra;
      if U32At(file, at + 14) != crc || U32At(file, at + 18) != size || U32At(file, at + 22) != size
         || start + size > |file| || file[at + 30..at + 30 + length] != name then None
      else
        var data := file[start..start + size];
        if Crc(data) != crc then None else Some(Entry(name, data))
  }

  /** `n` records of the central directory from position `p`. */
  function ReadDirectory(file: seq<byte>, p: nat, n: nat): Option<seq<Entry>>
    decreases n
  {
    if n == 0 then Some([])
    else if p + 46 > |file| || U32At(file, p) != CENTRAL_SIGNATURE || U16At(file, p + 10) != 0 then None
    else
      var length, extra, comment := U16At(file, p + 28), U16At(file, p + 30), U16At(file, p + 32);
      if p + 46 + length > |file| || U32At(file, p + 20) != U32At(file, p + 24) then None
      else
        var name := file[p + 46..p + 46 + length];
        var entry := ReadLocal(file, U32At(file, p + 42), name, U32At(file, p + 16), U32At(file, p + 24));
        var rest := ReadDirectory(file, p + 46 + length + extra + comment, n - 1);
        if entry.None? || rest.None? then None else Some([entry.value] + rest.value)
  }

  /** From the end record to the directory to the entries. */
  function Read(file: seq<byte>): Option<seq<Entry>> {
    if |file| < 22 then None
    else
      var p := |file| - 22;
      if U32At(file, p) != END_SIGNATURE || U16At(file, p + 8) != U16At(file, p + 10)
         || U32At(file, p + 16) + U32At(file, p + 12) != p then None
      else ReadDirectory(file, U32At(file, p + 16), U16At(file, p + 10))
  }

  // ---- what is where ----

  predicate HasAt(file: seq<byte>, p: nat, chunk: seq<byte>) {
    p + |chunk| <= |file| && file[p..p + |chunk|] == chunk
  }

  lemma HasAtByte(file: seq<byte>, p: nat, chunk: seq<byte>, k: nat)
    requires HasAt(file, p, chunk) && k < |chunk|
    ensures file[p + k] == chunk[k]
  {
    assert file[p..p + |chunk|][k] == chunk[k];
  }

  lemma HasAtSplit(file: seq<byte>, p: nat, a: seq<byte>, b: seq<byte>)
    requires HasAt(file, p, a + b)
    ensures HasAt(file, p, a) && HasAt(file, p + |a|, b)
  {
    var whole := file[p..p + |a + b|];
    assert file[p..p + |a|] == whole[..|a|] == a;
    assert file[p + |a|..p + |a| + |b|] == whole[|a|..] == b;
  }

  lemma HasAtInFront(a: seq<byte>, b: seq<byte>, p: nat, chunk: seq<byte>)
    requires HasAt(a, p, chunk)
    ensures HasAt(a + b, p, chunk)
  {
    assert (a + b)[p..p + |chunk|] == a[p..p + |chunk|];
  }

  lemma HasAtBehind(a: seq<byte>, b: seq<byte>, p: nat, chunk: seq<byte>)
    requires HasAt(b, p, chunk)
    ensures HasAt(a + b, |a| + p, chunk)
  {
    assert (a + b)[|a| + p..|a| + p + |chunk|] == b[p..p + |chunk|];
  }

  lemma {:induction false} LocalIsAt(entries: seq<Entry>, i: nat)
    requires i < |entries|
    ensures HasAt(Locals(entries), |Locals(entries[..i])|, LocalRecord(entries[i]))
  {
    hide LocalRecord;
    var n := |entries| - 1;
    var before, last := Locals(entries[..n]), LocalRecord(entries[n]);
    if i < n {
      LocalIsAt(entries[..n], i);
      assert entries[..n][..i] == entries[..i];
      HasAtInFront(before, last, |Locals(entries[..i])|, LocalRecord(entries[i]));
    } else {
      HasAtEnd(before, last);
    }
  }

  lemma HasAtEnd(a: seq<byte>, b: seq<byte>)
    ensures HasAt(a + b, |a|, b)
  {
  }

  lemma {:induction false} CentralIsAt(entries: seq<Entry>, i: nat)
    requires i < |entries|
    ensures HasAt(Directory(entries), |Directory(entries[..i])|, CentralRecord(entries[i], |Locals(entries[..i])|))
  {
    hide CentralRecord, Locals;
    var n := |entries| - 1;
    var before, last := Directory(entries[..n]), CentralRecord(entries[n], |Locals(entries[..n])|);
    if i < n {
      CentralIsAt(entries[..n], i);
      assert entries[..n][..i] == entries[..i];
      HasAtInFront(before, last, |Directory(entries[..i])|, CentralRecord(entries[i], |Locals(entries[..i])|));
    } else {
      HasAtEnd(before, last);
    }
  }

  lemma {:induction false} PrefixesShorter(entries: seq<Entry>, i: nat)
    requires i <= |entries|
    ensures |Locals(entries[..i])| <= |Locals(entries)| && |Directory(entries[..i])| <= |Directory(entries)|
  {
    if i < |entries| {
      PrefixesShorter(entries[..|entries| - 1], i);
      assert entries[..|entries| - 1][..i] == entries[..i];
    } else {
      assert entries[..i] == entries;
    }
  }

  // ---- reading back ----

  lemma {:induction false} FieldIsAt(fields: seq<Field>, k: nat)
    requires k < |fields|
    ensures HasAt(Bytes(fields), Offset(fields, k), FieldBytes(fields[k]))
  {
    hide FieldBytes, HasAt;
    var n := |fields| - 1;
    OffsetInPrefix(fields, n, k);
    if k < n {
      FieldIsAt(fields[..n], k);
      HasAtInFront(Bytes(fields[..n]), FieldBytes(fields[n]), Offset(fields, k), FieldBytes(fields[k]));
    } else {
      HasAtEnd(Bytes(fields[..n]), FieldBytes(fields[n]));
    }
  }

  lemma HasAtWithin(file: seq<byte>, p: nat, chunk: seq<byte>, q: nat, part: seq<byte>)
    requires HasAt(file, p, chunk) && HasAt(chunk, q, part)
    ensures HasAt(file, p + q, part)
  {
    forall j | 0 <= j < |part|
      ensures file[p + q + j] == part[j]
    {
      HasAtByte(chunk, q, part, j);
      HasAtByte(file, p, chunk, q + j);
    }
  }

  /** The number read where a field starts is the number of the field. */
  predicate Reads(file: seq<byte>, p: nat, f: Field) {
    p + Width(f) <= |file| && (if f.W16? then U16At(file, p) else U32At(file, p)) == f.n
  }

  lemma FieldReads(file: seq<byte>, p: nat, f: Field)
    requires HasAt(file, p, FieldBytes(f)) && FieldFits(f)
    ensures Reads(file, p, f)
  {
    hide Byte, U16At, U32At;
    HasAtByte(file, p, FieldBytes(f), 0);
    HasAtByte(file, p, FieldBytes(f), 1);
    if f.W16? {
      U16Back(file, p, f.n);
    } else {
      HasAtByte(file, p, FieldBytes(f), 2);
      HasAtByte(file, p, FieldBytes(f), 3);
      U32Back(file, p, f.n);
    }
  }

  /** Every field of a header in a file is read back. */
  lemma HeaderReads(file: seq<byte>, p: nat, fields: seq<Field>, k: nat)
    requires HasAt(file, p, Bytes(fields)) && k < |fields| && FieldFits(fields[k])
    ensures Reads(file, p + Offset(fields, k), fields[k])
  {
    hide HasAt, Bytes, FieldBytes, Reads, Offset, FieldFits;
    FieldIsAt(fields, k);
    HasAtWithin(file, p, Bytes(fields), Offset(fields, k), FieldBytes(fields[k]));
    FieldReads(file, p + Offset(fields, k), fields[k]);
  }

  lemma LocalReads(file: seq<byte>, at: nat, e: Entry)
    requires HasAt(file, at, LocalHeader(e)) && |e.data| <= MAX32 && |e.name| <= MAX16
    ensures at + 30 <= |file| && U32At(file, at) == LOCAL_SIGNATURE && U16At(file, at + 8) == 0
    ensures U32At(file, at + 14) == Crc(e.data) && U32At(file, at + 18) == U32At(file, at + 22) == |e.data|
    ensures U16At(file, at + 26) == |e.name| && U16At(file, at + 28) == 0
  {
    hide Crc, U16At, U32At, Bytes, Offset;
    var f := LocalFields(e);
    LocalOffsets(e);
    HeaderReads(file, at, f, 0);
    HeaderReads(file, at, f, 3);
    HeaderReads(file, at, f, 6);
    HeaderReads(file, at, f, 7);
    HeaderReads(file, at, f, 8);
    HeaderReads(file, at, f, 9);
    HeaderReads(file, at, f, 10);
  }

  lemma ReadsLocal(file: seq<byte>, at: nat, e: Entry)
    requires HasAt(file, at, LocalRecord(e)) && |e.data| <= MAX32 && |e.name| <= MAX16
    ensures ReadLocal(file, at, e.name, Crc(e.data), |e.data|) == Some(e)
  {
    hide LocalHeader, U16At, U32At, Crc;
    HasAtSplit(file, at, LocalHeader(e), e.name + e.data);
    HasAtSplit(file, at + 30, e.name, e.data);
    LocalReads(file, at, e);
  }

  lemma CentralReads(file: seq<byte>, p: nat, e: Entry, offset: nat)
    requires HasAt(file, p, CentralHeader(e, offset)) && |e.data| <= MAX32 && |e.name| <= MAX16 && offset <= MAX32
    ensures p + 46 <= |file| && U32At(file, p) == CENTRAL_SIGNATURE && U16At(file, p + 10) == 0
    ensures U32At(file, p + 16) == Crc(e.data) && U32At(file, p + 20) == U32At(file, p + 24) == |e.data|
    ensures U16At(file, p + 28) == |e.name| && U16At(file, p + 30) == U16At(file, p + 32) == 0
    ensures U32At(file, p + 42) == offset
  {
    hide Crc, U16At, U32At, Bytes, Offset;
    var f := CentralFields(e, offset);
    CentralOffsets(e, offset);
    HeaderReads(file, p, f, 0);
    HeaderReads(file, p, f, 4);
    HeaderReads(file, p, f, 7);
    HeaderReads(file, p, f, 8);
    HeaderReads(file, p, f, 9);
    HeaderReads(file, p, f, 10);
    HeaderReads(file, p, f, 11);
    HeaderReads(file, p, f, 12);
    HeaderReads(file, p, f, 16);
  }

  lemma ReadsRecord(file: seq<byte>, p: nat, e: Entry, offset: nat, n: nat, rest: seq<Entry>)
    requires HasAt(file, p, CentralRecord(e, offset)) && HasAt(file, offset, LocalRecord(e))
    requires |e.data| <= MAX32 && |e.name| <= MAX16 && offset <= MAX32
    requires ReadDirectory(file, p + 46 + |e.name|, n) == Some(rest)
    ensures ReadDirectory(file, p, n + 1) == Some([e] + rest)
  {
    hide CentralHeader, U16At, U32At, Crc, ReadLocal, LocalRecord;
    HasAtSplit(file, p, CentralHeader(e, offset), e.name);
    CentralReads(file, p, e, offset);
    ReadsLocal(file, offset, e);
  }

  /** Entry `i` is in the file where an archive with its directory at `dir` has it. */
  predicate HoldsEntry(file: seq<byte>, dir: nat, entries: seq<Entry>, i: nat)
    requires i < |entries|
  {
    && HasAt(file, |Locals(entries[..i])|, LocalRecord(entries[i]))
    && HasAt(file, dir + |Directory(entries[..i])|, CentralRecord(entries[i], |Locals(entries[..i])|))
  }

  predicate Holds(file: seq<byte>, dir: nat, entries: seq<Entry>) {
    forall i :: 0 <= i < |entries| ==> HoldsEntry(file, dir, entries, i)
  }

  lemma EntryFits(entries: seq<Entry>, i: nat)
    requires i < |entries| && Fits(entries)
    ensures |entries[i].name| <= MAX16 && |entries[i].data| <= MAX32 && |Locals(entries[..i])| <= MAX32
    ensures |Directory(entries[..i + 1])| == |Directory(entries[..i])| + 46 + |entries[i].name|
  {
    PrefixesShorter(entries, i);
    PrefixesShorter(entries, i + 1);
    PrefixStep(entries, i);
    hide Locals, Directory;
  }

  lemma ReadsEntry(file: seq<byte>, dir: nat, entries: seq<Entry>, i: nat, rest: seq<Entry>)
    requires i < |entries| && HoldsEntry(file, dir, entries, i) && Fits(entries)
    requires ReadDirectory(file, dir + |Directory(entries[..i + 1])|, |entries| - i - 1) == Some(rest)
    ensures ReadDirectory(file, dir + |Directory(entries[..i])|, |entries| - i) == Some([entries[i]] + rest)
  {
    hide Fits, ReadDirectory, CentralRecord, LocalRecord, Locals, Directory, HasAt;
    EntryFits(entries, i);
    ReadsRecord(file, dir + |Directory(entries[..i])|, entries[i], |Locals(entries[..i])|, |entries| - i - 1, rest);
  }

  lemma {:induction false} ReadsFrom(file: seq<byte>, dir: nat, entries: seq<Entry>, i: nat)
    requires Holds(file, dir, entries) && Fits(entries) && i <= |entries|
    ensures ReadDirectory(file, dir + |Directory(entries[..i])|, |entries| - i) == Some(entries[i..])
    decreases |entries| - i
  {
    hide Fits, HoldsEntry, Directory, ReadDirectory;
    if i < |entries| {
      ReadsFrom(file, dir, entries, i + 1);
      ReadsEntry(file, dir, entries, i, entries[i + 1..]);
      assert entries[i..] == [entries[i]] + entries[i + 1..];
    } else {
      assert entries[i..] == [];
      NoRecords(file, dir + |Directory(entries[..i])|);
    }
  }

  lemma NoRecords(file: seq<byte>, p: nat)
    ensures ReadDirectory(file, p, 0) == Some([])
  {
  }

  lemma PrefixStep(entries: seq<Entry>, i: nat)
    requires i < |entries|
    ensures |Locals(entries[..i + 1])| == |Locals(entries[..i])| + 30 + |entries[i].name| + |entries[i].data|
    ensures |Directory(entries[..i + 1])| == |Directory(entries[..i])| + 46 + |entries[i].name|
  {
    assert entries[..i + 1][..i] == entries[..i];
  }

  /** What the first and the second of three parts hold, the whole holds. */
  lemma InParts(a: seq<byte>, b: seq<byte>, c: seq<byte>, p: nat, x: seq<byte>, q: nat, y: seq<byte>)
    requires HasAt(a, p, x) && HasAt(b, q, y)
    ensures HasAt(a + (b + c), p, x) && HasAt(a + (b + c), |a| + q, y)
  {
    hide HasAt;
    HasAtInFront(a, b + c, p, x);
    HasAtInFront(b, c, q, y);
    HasAtBehind(a, b + c, q, y);
  }

  lemma ArchiveHoldsEntry(entries: seq<Entry>, i: nat)
    requires i < |entries|
    ensures HoldsEntry(Archive(entries), |Locals(entries)|, entries, i)
  {
    hide Locals, Directory, EndRecord, LocalRecord, CentralRecord, HasAt;
    LocalIsAt(entries, i);
    CentralIsAt(entries, i);
    var at := |Locals(entries[..i])|;
    InParts(Locals(entries), Directory(entries), EndRecord(|entries|, |Directory(entries)|, |Locals(entries)|),
      at, LocalRecord(entries[i]), |Directory(entries[..i])|, CentralRecord(entries[i], at));
  }

  lemma ArchiveHolds(entries: seq<Entry>)
    ensures Holds(Archive(entries), |Locals(entries)|, entries)
  {
    hide Archive, Locals, HoldsEntry;
    forall i | 0 <= i < |entries|
      ensures HoldsEntry(Archive(entries), |Locals(entries)|, entries, i)
    {
      ArchiveHoldsEntry(entries, i);
    }
  }

  lemma EndReads(file: seq<byte>, p: nat, count: nat, size: nat, offset: nat)
    requires HasAt(file, p, EndRecord(count, size, offset)) && count <= MAX16 && size <= MAX32 && offset <= MAX32
    ensures p + 22 <= |file| && U32At(file, p) == END_SIGNATURE && U16At(file, p + 8) == U16At(file, p + 10) == count
    ensures U32At(file, p + 12) == size && U32At(file, p + 16) == offset
  {
    hide U16At, U32At, Bytes, Offset;
    var f := EndFields(count, size, offset);
    EndOffsets(count, size, offset);
    HeaderReads(file, p, f, 0);
    HeaderReads(file, p, f, 3);
    HeaderReads(file, p, f, 4);
    HeaderReads(file, p, f, 5);
    HeaderReads(file, p, f, 6);
  }

  lemma EndIsLast(entries: seq<Entry>)
    ensures var locals, directory := Locals(entries), Directory(entries);
            && |Archive(entries)| == |locals| + |directory| + 22
            && HasAt(Archive(entries), |locals| + |directory|, EndRecord(|entries|, |directory|, |locals|))
  {
    hide Locals, Directory, EndRecord, HasAt;
    LastPart(Locals(entries), Directory(entries), EndRecord(|entries|, |Directory(entries)|, |Locals(entries)|));
  }

  lemma LastPart(a: seq<byte>, b: seq<byte>, c: seq<byte>)
    ensures HasAt(a + (b + c), |a| + |b|, c)
  {
    hide HasAt;
    HasAtEnd(b, c);
    HasAtBehind(a, b + c, |b|, c);
  }

  lemma ReadsAll(entries: seq<Entry>)
    requires Fits(entries)
    ensures ReadDirectory(Archive(entries), |Locals(entries)|, |entries|) == Some(entries)
  {
    ArchiveHolds(entries);
    ReadsFrom(Archive(entries), |Locals(entries)|, entries, 0);
    assert entries[..0] == [] && entries[0..] == entries && |Directory([])| == 0;
  }

  lemma FitsAll(entries: seq<Entry>)
    requires Fits(entries)
    ensures |entries| <= MAX16 && |Locals(entries)| <= MAX32 && |Directory(entries)| <= MAX32
  {
  }

  /** Reading an archive from its end record gives exactly the entries written. */
  lemma ReadBack(entries: seq<Entry>)
    requires Fits(entries)
    ensures Read(Archive(entries)) == Some(entries)
  {
    hide Fits, Archive, Locals, Directory, ReadDirectory, EndRecord, U16At, U32At, HasAt;
    EndIsLast(entries);
    ReadsAll(entries);
    FitsAll(entries);
    EndReads(Archive(entries), |Locals(entries)| + |Directory(entries)|, |entries|, |Directory(entries)|,
      |Locals(entries)|);
  }

  // ---- the bytes of the headers ----

  /** Numbers are written with their lowest byte first. */
  lemma LittleEndian(n: nat)
    ensures FieldBytes(W16(n)) == [n % 256, n / 256 % 256]
    ensures FieldBytes(W32(n)) == [n % 256, n / 256 % 256, n / 256 / 256 % 256, n / 256 / 256 / 256 % 256]
  {
    var a, b, c := n / 256, n / 256 / 256, n / 256 / 256 / 256;
    assert Byte(n, 1) == Byte(a, 0);
    assert Byte(n, 2) == Byte(a, 1) == Byte(b, 0);
    assert Byte(n, 3) == Byte(a, 2) == Byte(b, 1) == Byte(c, 0);
  }

  lemma WholeHeader(h: seq<byte>)
    ensures HasAt(h, 0, h)
  {
    assert h[0..|h|] == h;
  }

  lemma FirstField(fields: seq<Field>)
    requires fields != []
    ensures HasAt(Bytes(fields), 0, FieldBytes(fields[0]))
  {
    hide HasAt, Bytes, FieldBytes;
    FieldIsAt(fields, 0);
    NoOffset(fields);
  }

  lemma LocalStart(e: Entry)
    ensures LocalHeader(e)[..4] == [0x50, 0x4b, 0x03, 0x04]
  {
    hide Bytes, Crc, FieldBytes;
    FirstField(LocalFields(e));
    LittleEndian(0x04034b50);
  }

  lemma DirectoryStart(e: Entry, offset: nat)
    ensures CentralHeader(e, offset)[..4] == [0x50, 0x4b, 0x01, 0x02]
  {
    hide Bytes, Crc, FieldBytes;
    FirstField(CentralFields(e, offset));
    LittleEndian(0x02014b50);
  }

  lemma EndStart(count: nat, size: nat, offset: nat)
    ensures EndRecord(count, size, offset)[..4] == [0x50, 0x4b, 0x05, 0x06]
  {
    hide Bytes, FieldBytes;
    FirstField(EndFields(count, size, offset));
    LittleEndian(0x06054b50);
  }

  /** The local header starts with PK 3 4, for version 2.0, with the UTF-8 flag, stored,
      dated 1980-01-01. */
  lemma LocalHeaderBytes(e: Entry)
    ensures var h := LocalHeader(e);
            && h[..4] == [0x50, 0x4b, 0x03, 0x04]
            && U16At(h, 4) == 20 && U16At(h, 6) == 0x0800 && U16At(h, 8) == 0 && U16At(h, 10) == 0
            && U16At(h, 12) == 0x21
  {
    hide Bytes, Crc, U16At, U32At, Offset, HasAt;
    var f := LocalFields(e);
    LocalStart(e);
    WholeHeader(LocalHeader(e));
    NoOffset(f);
    FourOffsets(f, 0);
    FourOffsets(f, 2);
    HeaderReads(LocalHeader(e), 0, f, 1);
    HeaderReads(LocalHeader(e), 0, f, 2);
    HeaderReads(LocalHeader(e), 0, f, 3);
    HeaderReads(LocalHeader(e), 0, f, 4);
    HeaderReads(LocalHeader(e), 0, f, 5);
  }

  /** The directory header starts with PK 1 2 and repeats that; it has no disk and no
      attributes. */
  lemma CentralHeaderBytes(e: Entry, offset: nat)
    ensures var h := CentralHeader(e, offset);
            && h[..4] == [0x50, 0x4b, 0x01, 0x02]
            && U16At(h, 4) == 20 && U16At(h, 6) == 20 && U16At(h, 8) == 0x0800 && U16At(h, 10) == 0
            && U16At(h, 12) == 0 && U16At(h, 14) == 0x21
            && U16At(h, 34) == 0 && U16At(h, 36) == 0 && U32At(h, 38) == 0
  {
    hide Bytes, Crc, U16At, U32At, Offset, HasAt;
    var f := CentralFields(e, offset);
    DirectoryStart(e, offset);
    WholeHeader(CentralHeader(e, offset));
    NoOffset(f);
    FourOffsets(f, 0);
    FourOffsets(f, 3);
    FourOffsets(f, 13);
    CentralOffsets(e, offset);
    HeaderReads(CentralHeader(e, offset), 0, f, 1);
    HeaderReads(CentralHeader(e, offset), 0, f, 2);
    HeaderReads(CentralHeader(e, offset), 0, f, 3);
    HeaderReads(CentralHeader(e, offset), 0, f, 4);
    HeaderReads(CentralHeader(e, offset), 0, f, 5);
    HeaderReads(CentralHeader(e, offset), 0, f, 6);
    FourOffsets(f, 12);
    HeaderReads(CentralHeader(e, offset), 0, f, 13);
    HeaderReads(CentralHeader(e, offset), 0, f, 14);
    HeaderReads(CentralHeader(e, offset), 0, f, 15);
  }

  /** The end record starts with PK 5 6, names disk 0 and has no comment. */
  lemma EndRecordBytes(count: nat, size: nat, offset: nat)
    ensures var h := EndRecord(count, size, offset);
            && h[..4] == [0x50, 0x4b, 0x05, 0x06]
            && U16At(h, 4) == 0 && U16At(h, 6) == 0 && U16At(h, 20) == 0
  {
    hide Bytes, U16At, U32At, Offset, HasAt;
    var f := EndFields(count, size, offset);
    EndStart(count, size, offset);
    WholeHeader(EndRecord(count, size, offset));
    NoOffset(f);
    FourOffsets(f, 0);
    FourOffsets(f, 4);
    EndOffsets(count, size, offset);
    HeaderReads(EndRecord(count, size, offset), 0, f, 1);
    HeaderReads(EndRecord(count, size, offset), 0, f, 2);
    HeaderReads(EndRecord(count, size, offset), 0, f, 7);
  }

  // ---- buffers ----

  method WriteUInt16LE(buffer: array<byte>, n: nat, at: nat)
    requires at + 2 <= buffer.Length
    modifies buffer
    ensures buffer[..at + 2] == old(buffer[..at]) + FieldBytes(W16(n))
    ensures forall k :: at + 2 <= k < buffer.Length ==> buffer[k] == old(buffer[k])
  {
    buffer[at] := Byte(n, 0);
    buffer[at + 1] := Byte(n, 1);
  }

  method WriteUInt32LE(buffer: array<byte>, n: nat, at: nat)
    requires at + 4 <= buffer.Length
    modifies buffer
    ensures buffer[..at + 4] == old(buffer[..at]) + FieldBytes(W32(n))
    ensures forall k :: at + 4 <= k < buffer.Length ==> buffer[k] == old(buffer[k])
  {
    buffer[at] := Byte(n, 0);
    buffer[at + 1] := Byte(n, 1);
    buffer[at + 2] := Byte(n, 2);
    buffer[at + 3] := Byte(n, 3);
  }

  lemma BytesStep(f: seq<Field>, k: nat)
    requires k < |f|
    ensures Bytes(f[..k + 1]) == Bytes(f[..k]) + FieldBytes(f[k])
  {
    assert f[..k + 1][..k] == f[..k];
  }

  lemma ZeroFields()
    ensures Bytes([]) == [] && FieldBytes(W16(0)) == [0, 0] && FieldBytes(W32(0)) == [0, 0, 0, 0]
  {
  }

  /** The local header, written field by field into a zeroed buffer. */
  method LocalBuffer(e: Entry) returns (header: array<byte>)
    ensures fresh(header) && header[..] == LocalHeader(e)
  {
    hide Byte, Crc, Offset, Bytes, FieldBytes;
    ghost var f := LocalFields(e);
    header := new byte[30](_ => 0);
    ZeroFields();
    assert f[..0] == [] && header[..0] == [];
    WriteUInt32LE(header, LOCAL_SIGNATURE, 0);
    BytesStep(f, 0);
    WriteUInt16LE(header, 20, 4);
    BytesStep(f, 1);
    WriteUInt16LE(header, 0x0800, 6);
    BytesStep(f, 2);
    WriteUInt16LE(header, 0, 8);
    BytesStep(f, 3);
    WriteUInt16LE(header, 0, 10);
    BytesStep(f, 4);
    WriteUInt16LE(header, 0x21, 12);
    BytesStep(f, 5);
    WriteUInt32LE(header, Crc(e.data), 14);
    BytesStep(f, 6);
    WriteUInt32LE(header, |e.data|, 18);
    BytesStep(f, 7);
    WriteUInt32LE(header, |e.data|, 22);
    BytesStep(f, 8);
    WriteUInt16LE(header, |e.name|, 26);
    BytesStep(f, 9);
    BytesStep(f, 10);
    assert header[..] == header[..28] + [0, 0];
    assert f[..11] == f;
  }

  lemma GapInCentral(f: seq<Field>)
    requires |f| == 17 && f[11] == f[12] == f[13] == f[14] == W16(0) && f[15] == W32(0)
    ensures Bytes(f[..16]) == Bytes(f[..11]) + [0, 0, 0, 0, 0, 0, 0, 0, 0, 0, 0, 0]
  {
    hide Byte, Bytes, FieldBytes;
    ZeroFields();
    BytesStep(f, 11);
    BytesStep(f, 12);
    BytesStep(f, 13);
    BytesStep(f, 14);
    BytesStep(f, 15);
  }

  /** The first seven fields of the directory header. */
  method CentralStart(record: array<byte>, ghost f: seq<Field>)
    requires record.Length == 46 && 7 <= |f|
    requires f[..7] == [W32(CENTRAL_SIGNATURE), W16(20), W16(20), W16(0x0800), W16(0), W16(0), W16(0x21)]
    modifies record
    ensures record[..16] == Bytes(f[..7])
    ensures forall k :: 16 <= k < 46 ==> record[k] == old(record[k])
  {
    hide Byte, Bytes, FieldBytes;
    ZeroFields();
    assert f[..0] == [] && record[..0] == [];
    WriteUInt32LE(record, CENTRAL_SIGNATURE, 0);
    BytesStep(f, 0);
    WriteUInt16LE(record, 20, 4);
    BytesStep(f, 1);
    WriteUInt16LE(record, 20, 6);
    BytesStep(f, 2);
    WriteUInt16LE(record, 0x0800, 8);
    BytesStep(f, 3);
    WriteUInt16LE(record, 0, 10);
    BytesStep(f, 4);
    WriteUInt16LE(record, 0, 12);
    BytesStep(f, 5);
    WriteUInt16LE(record, 0x21, 14);
    BytesStep(f, 6);
  }

  /** The directory header; what is not written stays zero. */
  method CentralBuffer(e: Entry, offset: nat) returns (record: array<byte>)
    ensures fresh(record) && record[..] == CentralHeader(e, offset)
  {
    hide Byte, Crc, Offset, Bytes, FieldBytes;
    ghost var f := CentralFields(e, offset);
    record := new byte[46](_ => 0);
    CentralStart(record, f);
    WriteUInt32LE(record, Crc(e.data), 16);
    BytesStep(f, 7);
    WriteUInt32LE(record, |e.data|, 20);
    BytesStep(f, 8);
    WriteUInt32LE(record, |e.data|, 24);
    BytesStep(f, 9);
    WriteUInt16LE(record, |e.name|, 28);
    BytesStep(f, 10);
    GapInCentral(f);
    assert record[..42] == record[..30] + [0, 0, 0, 0, 0, 0, 0, 0, 0, 0, 0, 0];
    WriteUInt32LE(record, offset, 42);
    BytesStep(f, 16);
    assert f[..17] == f && record[..] == record[..46];
  }

  method EndBuffer(count: nat, size: nat, offset: nat) returns (end: array<byte>)
    ensures fresh(end) && end[..] == EndRecord(count, size, offset)
  {
    hide Byte, Offset, Bytes, FieldBytes;
    ghost var f := EndFields(count, size, offset);
    end := new byte[22](_ => 0);
    ZeroFields();
    assert f[..0] == [] && end[..0] == [];
    WriteUInt32LE(end, END_SIGNATURE, 0);
    BytesStep(f, 0);
    BytesStep(f, 1);
    BytesStep(f, 2);
    assert end[..8] == end[..4] + [0, 0] + [0, 0];
    WriteUInt16LE(end, count, 8);
    BytesStep(f, 3);
    WriteUInt16LE(end, count, 10);
    BytesStep(f, 4);
    WriteUInt32LE(end, size, 12);
    BytesStep(f, 5);
    WriteUInt32LE(end, offset, 16);
    BytesStep(f, 6);
    BytesStep(f, 7);
    assert end[..] == end[..20] + [0, 0];
    assert f[..8] == f;
  }

  // ---- the writer ----

  /** One more entry: its local record with its contents, its directory record
      with the offset so far. */
  lemma EntryStep(entries: seq<Entry>, i: nat)
    requires i < |entries|
    ensures Locals(entries[..i + 1]) == Locals(entries[..i]) + LocalRecord(entries[i])
    ensures Directory(entries[..i + 1]) == Directory(entries[..i]) + CentralRecord(entries[i], |Locals(entries[..i])|)
  {
    hide LocalRecord, CentralRecord;
    assert entries[..i + 1][..i] == entries[..i];
  }

  lemma NoEntries()
    ensures Locals([]) == [] && Directory([]) == []
  {
  }

  method LocalPart(e: Entry) returns (r: seq<byte>)
    ensures r == LocalRecord(e)
  {
    hide LocalHeader;
    var header := LocalBuffer(e);
    r := header[..] + (e.name + e.data);
  }

  method CentralPart(e: Entry, offset: nat) returns (r: seq<byte>)
    ensures r == CentralRecord(e, offset)
  {
    hide CentralHeader;
    var record := CentralBuffer(e, offset);
    r := record[..] + e.name;
  }

  method EndPart(count: nat, size: nat, offset: nat) returns (r: seq<byte>)
    ensures r == EndRecord(count, size, offset)
  {
    hide EndRecord;
    var end := EndBuffer(count, size, offset);
    r := end[..];
  }

  /** The loop over the entries as written; a number that does not fit its field
      makes the writer fail. */
  method Write(entries: seq<Entry>) returns (r: Option<seq<byte>>)
    ensures r == if Fits(entries) then Some(Archive(entries)) else None
  {
    hide LocalRecord, CentralRecord, EndRecord, Locals, Directory;
    var local: seq<byte> := [];
    var central: seq<byte> := [];
    var offset := 0;
    var i := 0;
    NoEntries();
    while i < |entries|
      invariant i <= |entries|
      invariant local == Locals(entries[..i]) && central == Directory(entries[..i]) && offset == |local|
      invariant forall k :: 0 <= k < i ==> |entries[k].name| <= MAX16
    {
      var e := entries[i];
      PrefixesShorter(entries, i);
      PrefixesShorter(entries, i + 1);
      PrefixStep(entries, i);
      if |e.name| > MAX16 || |e.data| > MAX32 || offset > MAX32 {
        return None;
      }
      EntryStep(entries, i);
      var header := LocalPart(e);
      local := local + header;
      var record := CentralPart(e, offset);
      central := central + record;
      offset := offset + 30 + |e.name| + |e.data|;
      i := i + 1;
    }
    assert entries[..i] == entries;
    if |entries| > MAX16 || |central| > MAX32 || offset > MAX32 {
      return None;
    }
    var end := EndPart(|entries|, |central|, offset);
    r := Some(local + (central + end));
  }
}
