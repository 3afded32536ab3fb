/** Byte format of the log file: a 40-byte header, then for every entry a 152-byte record
    followed by its extents, 16 bytes each, all little-endian. */
module LogCodec {
  import opened Division
  import opened LogTypes

  const LOG_MAGIC: nat := 0x474F4C5449545554
  const LOG_VERSION: nat := 1
  const HEADER_SIZE: nat := 40
  const RECORD_SIZE: nat := 152
  const EXTENT_SIZE: nat := 16
  const U32_LIMIT: nat := 0x1_0000_0000
  const U64_LIMIT: nat := 0x1_0000_0000_0000_0000

  datatype LoadError = ShortHeader | BadMagic | BadVersion | ShortRecord | ShortExtents

  datatype Loaded = Loaded(entries: seq<Entry>, nextId: nat)

  datatype Result<+T> = Ok(value: T) | Err(error: LoadError)

  // ----- Little-endian integers

  ghost function Pow256(k: nat): nat {
    if k == 0 then 1 else 256 * Pow256(k - 1)
  }

  /** The low k bytes of n: an unsigned field of k bytes truncates. */
  function LE(n: nat, k: nat): (b: seq<byte>)
    ensures |b| == k
  {
    if k == 0 then [] else [n % 256] + LE(n / 256, k - 1)
  }

  function FromLE(b: seq<byte>): nat {
    if b == [] then 0 else b[0] + 256 * FromLE(b[1..])
  }

  lemma {:induction false} FromLEBelow(b: seq<byte>)
    ensures FromLE(b) < Pow256(|b|)
  {
    if b != [] { FromLEBelow(b[1..]); }
  }

  lemma {:induction false} LERoundTrip(n: nat, k: nat)
    ensures FromLE(LE(n, k)) == n <==> n < Pow256(k)
  {
    if k == 0 {
    } else {
      LERoundTrip(n / 256, k - 1);
      assert LE(n, k)[1..] == LE(n / 256, k - 1);
      if FromLE(LE(n, k)) == n { FromLEBelow(LE(n, k)); }
    }
  }

  lemma {:induction false} FromLEUnique(b: seq<byte>)
    ensures LE(FromLE(b), |b|) == b
  {
    if b != [] {
      FromLEUnique(b[1..]);
      FirstByte(b[0], FromLE(b[1..]));
      assert b == [b[0]] + b[1..];
      OneByte(FromLE(b), |b|);
    }
  }

  lemma FirstByte(low: byte, rest: nat)
    ensures (low + 256 * rest) % 256 == low && (low + 256 * rest) / 256 == rest
  {
  }

  lemma OneByte(n: nat, k: nat)
    requires k > 0
    ensures LE(n, k) == [n % 256] + LE(n / 256, k - 1)
  {
  }

  /** Byte i of a number, counted from the least significant. */
  ghost function ByteOf(n: nat, i: nat): byte {
    Positive(i);
    n / Pow256(i) % 256
  }

  lemma {:induction false} Positive(i: nat)
    ensures Pow256(i) > 0
  {
    if i > 0 { Positive(i - 1); }
  }

  /** An integer field holds the least significant byte first. */
  lemma {:induction false} LittleEndian(n: nat, k: nat, i: nat)
    requires i < k
    ensures Pow256(i) > 0 && LE(n, k)[i] == n / Pow256(i) % 256 == ByteOf(n, i)
  {
    Positive(i);
    if i > 0 {
      LittleEndian(n / 256, k - 1, i - 1);
      DivideTwice(n, 256, Pow256(i - 1));
    }
  }

  lemma LEFour(n: nat)
    ensures LE(n, 4) == [n % 256, n / 256 % 256, n / 65536 % 256, n / 16777216 % 256]
  {
    assert LE(n, 4) == [n % 256] + LE(n / 256, 3);
    assert LE(n / 256, 3) == [n / 256 % 256] + LE(n / 65536, 2);
    assert LE(n / 65536, 2) == [n / 65536 % 256, n / 16777216 % 256];
  }

  lemma FieldWidths()
    ensures Pow256(4) == U32_LIMIT && Pow256(8) == U64_LIMIT
  {
    assert Pow256(2) == 65536;
    assert Pow256(4) == 65536 * Pow256(2);
    assert Pow256(6) == 65536 * Pow256(4);
    assert Pow256(8) == 65536 * Pow256(6);
  }

  lemma U32Field(n: nat)
    ensures FromLE(LE(n, 4)) == n <==> n < U32_LIMIT
  {
    LERoundTrip(n, 4);
    FieldWidths();
  }

  lemma U64Field(n: nat)
    ensures FromLE(LE(n, 8)) == n <==> n < U64_LIMIT
  {
    LERoundTrip(n, 8);
    FieldWidths();
  }

  // ----- Names: a NUL-padded field of 128 bytes, the last always NUL

  function Zeros(k: nat): (b: seq<byte>)
    ensures |b| == k && forall i :: 0 <= i < k ==> b[i] == 0
  {
    seq(k, _ => 0)
  }

  function NameField(name: Name): (b: seq<byte>)
    ensures |b| == NAME_MAX
  {
    if |name| < NAME_MAX then name + Zeros(NAME_MAX - |name|) else name[..NAME_MAX - 1] + [0]
  }

  /** Bytes before the first NUL. */
  function UpToNul(b: seq<byte>): (name: Name)
    ensures name <= b && 0 !in name
    ensures |name| < |b| ==> b[|name|] == 0
  {
    if b == [] || b[0] == 0 then [] else [b[0]] + UpToNul(b[1..])
  }

  predicate StorableName(name: Name) {
    |name| < NAME_MAX && 0 !in name
  }

  lemma {:induction false} UpToNulPadded(name: Name, pad: seq<byte>)
    requires 0 !in name && pad != [] && pad[0] == 0
    ensures UpToNul(name + pad) == name
  {
    if name == [] {
      assert name + pad == pad;
    } else {
      assert name[0] in name;
      assert (name + pad)[1..] == name[1..] + pad;
      UpToNulPadded(name[1..], pad);
    }
  }

  lemma NameRoundTrip(name: Name)
    ensures UpToNul(NameField(name)) == name <==> StorableName(name)
  {
    var b := NameField(name);
    var r := UpToNul(b);
    if StorableName(name) {
      UpToNulPadded(name, Zeros(NAME_MAX - |name|));
    } else if |name| >= NAME_MAX {
      assert b[NAME_MAX - 1] == 0;
      assert |r| < NAME_MAX;
    }
  }

  // ----- Extents

  function EncodeExtents(xs: seq<Extent>): (b: seq<byte>)
    ensures |b| == EXTENT_SIZE * |xs|
  {
    if xs == [] then []
    else LE(xs[0].startLba, 8) + LE(xs[0].lengthBlocks, 8) + EncodeExtents(xs[1..])
  }

  function DecodeExtents(b: seq<byte>, n: nat): (xs: seq<Extent>)
    requires |b| >= EXTENT_SIZE * n
    ensures |xs| == n
  {
    if n == 0 then []
    else [Extent(FromLE(b[..8]), FromLE(b[8..16]))] + DecodeExtents(b[16..], n - 1)
  }

  predicate StorableExtents(xs: seq<Extent>) {
    forall x :: x in xs ==> x.startLba < U64_LIMIT && x.lengthBlocks < U64_LIMIT
  }

  lemma Split3(a: seq<byte>, b: seq<byte>, c: seq<byte>)
    ensures (a + b + c)[..|a|] == a && (a + b + c)[|a|..|a| + |b|] == b && (a + b + c)[|a| + |b|..] == c
  {
  }

  lemma ExtentFields(xs: seq<Extent>, rest: seq<byte>)
    requires xs != []
    ensures var b := EncodeExtents(xs) + rest;
            && b[..8] == LE(xs[0].startLba, 8) && b[8..16] == LE(xs[0].lengthBlocks, 8)
            && b[16..] == EncodeExtents(xs[1..]) + rest
  {
    hide LE;
    var x, y, tail := LE(xs[0].startLba, 8), LE(xs[0].lengthBlocks, 8), EncodeExtents(xs[1..]);
    Split3(x, y, tail + rest);
    assert EncodeExtents(xs) + rest == x + y + (tail + rest);
  }

  lemma {:induction false} ExtentsRoundTrip(xs: seq<Extent>, rest: seq<byte>)
    ensures DecodeExtents(EncodeExtents(xs) + rest, |xs|) == xs <==> StorableExtents(xs)
  {
    hide LE, FromLE;
    if xs != [] {
      ExtentFields(xs, rest);
      U64Field(xs[0].startLba);
      U64Field(xs[0].lengthBlocks);
      ExtentsRoundTrip(xs[1..], rest);
      assert xs == [xs[0]] + xs[1..];
    }
  }

  // ----- Records

  function RecordHead(e: Entry): (b: seq<byte>)
    ensures |b| == RECORD_SIZE
  {
    LE(e.fileId, 8) + LE(e.size, 8) + LE(|e.extents|, 4) + LE(0, 4) + NameField(e.name)
  }

  function EncodeEntry(e: Entry): (b: seq<byte>)
    ensures |b| == RECORD_SIZE + EXTENT_SIZE * |e.extents|
  {
    RecordHead(e) + EncodeExtents(e.extents)
  }

  function EncodeEntries(es: seq<Entry>): seq<byte> {
    if es == [] then [] else EncodeEntry(es[0]) + EncodeEntries(es[1..])
  }

  function ExtentCount(b: seq<byte>): nat
    requires |b| >= RECORD_SIZE
  {
    FromLE(b[16..20])
  }

  function RecordLength(b: seq<byte>): nat
    requires |b| >= RECORD_SIZE
  {
    RECORD_SIZE + EXTENT_SIZE * ExtentCount(b)
  }

  function DecodeEntry(b: seq<byte>): Entry
    requires |b| >= RECORD_SIZE && |b| >= RecordLength(b)
  {
    Entry(FromLE(b[..8]), UpToNul(b[24..RECORD_SIZE]), FromLE(b[8..16]),
          DecodeExtents(b[RECORD_SIZE..], ExtentCount(b)))
  }

  function DecodeEntries(b: seq<byte>, n: nat): Result<seq<Entry>> {
    if n == 0 then Ok([])
    else if |b| < RECORD_SIZE then Err(ShortRecord)
    else if |b| < RecordLength(b) then Err(ShortExtents)
    else
      match DecodeEntries(b[RecordLength(b)..], n - 1)
      case Ok(es) => Ok([DecodeEntry(b)] + es)
      case Err(x) => Err(x)
  }

  predicate Storable(e: Entry) {
    && e.fileId < U64_LIMIT && e.size < U64_LIMIT && |e.extents| < U32_LIMIT
    && StorableName(e.name) && StorableExtents(e.extents)
  }

  // ----- The image

  function Header(count: nat, next: nat): (b: seq<byte>)
    ensures |b| == HEADER_SIZE
  {
    LE(LOG_MAGIC, 8) + LE(LOG_VERSION, 4) + LE(count, 4) + LE(next, 8) + Zeros(16)
  }

  function Encode(log: Loaded): seq<byte> {
    Header(|log.entries|, log.nextId) + EncodeEntries(log.entries)
  }

  function Decode(b: seq<byte>): Result<Loaded> {
    if |b| < HEADER_SIZE then Err(ShortHeader)
    else if FromLE(b[..8]) != LOG_MAGIC then Err(BadMagic)
    else if FromLE(b[8..12]) != LOG_VERSION then Err(BadVersion)
    else
      var next := FromLE(b[16..24]);
      match DecodeEntries(b[HEADER_SIZE..], FromLE(b[12..16]))
      case Ok(es) => Ok(Loaded(es, if next == 0 then 1 else next))
      case Err(x) => Err(x)
  }

  predicate StorableLog(log: Loaded) {
    && |log.entries| < U32_LIMIT && 0 < log.nextId < U64_LIMIT
    && forall e :: e in log.entries ==> Storable(e)
  }

  // ----- Round trip

  lemma RecordFields(e: Entry, rest: seq<byte>)
    ensures var b := RecordHead(e) + rest;
            && b[..8] == LE(e.fileId, 8) && b[8..16] == LE(e.size, 8) && b[16..20] == LE(|e.extents|, 4)
            && b[24..RECORD_SIZE] == NameField(e.name) && b[RECORD_SIZE..] == rest
  {
    hide LE, NameField;
    assert RecordHead(e)[..8] == LE(e.fileId, 8);
    assert RecordHead(e)[8..16] == LE(e.size, 8);
    assert RecordHead(e)[16..20] == LE(|e.extents|, 4);
    assert RecordHead(e)[24..] == NameField(e.name);
  }

  /** One record reads back as itself, and leaves the reader at the next record, exactly when
      every field fits. */
  lemma EntryRoundTrip(e: Entry, rest: seq<byte>)
    ensures var b := EncodeEntry(e) + rest;
            Storable(e) <==> |b| >= RecordLength(b) && DecodeEntry(b) == e
    ensures var b := EncodeEntry(e) + rest;
            Storable(e) ==> b[RecordLength(b)..] == rest
  {
    hide LE, FromLE, NameField, RecordHead, EncodeExtents, UpToNul;
    var b := EncodeEntry(e) + rest;
    var tail := EncodeExtents(e.extents) + rest;
    assert b == RecordHead(e) + tail;
    RecordFields(e, tail);
    U64Field(e.fileId);
    U64Field(e.size);
    U32Field(|e.extents|);
    NameRoundTrip(e.name);
    ExtentsRoundTrip(e.extents, rest);
    if |e.extents| < U32_LIMIT {
      assert tail[EXTENT_SIZE * |e.extents|..] == rest;
    }
  }

  lemma {:induction false} EntriesRoundTrip(es: seq<Entry>)
    ensures DecodeEntries(EncodeEntries(es), |es|) == Ok(es) <==> forall e :: e in es ==> Storable(e)
  {
    if es != [] {
      hide LE, FromLE, EncodeEntry, DecodeEntry, EncodeEntries, DecodeEntries, RecordLength, Storable;
      FirstAndRest(es);
      var b, rest := EncodeEntries(es), EncodeEntries(es[1..]);
      EntryRoundTrip(es[0], rest);
      EntriesRoundTrip(es[1..]);
      OneDecoded(b, es);
      assert forall e :: e in es <==> e == es[0] || e in es[1..];
    }
  }

  lemma OneDecoded(b: seq<byte>, es: seq<Entry>)
    requires es != [] && |b| >= RECORD_SIZE
    ensures DecodeEntries(b, |es|) == Ok(es) <==>
            |b| >= RecordLength(b) && DecodeEntry(b) == es[0] &&
            DecodeEntries(b[RecordLength(b)..], |es| - 1) == Ok(es[1..])
  {
    hide DecodeEntry, RecordLength;
    assert es == [es[0]] + es[1..];
  }

  lemma HeaderFields(count: nat, next: nat, rest: seq<byte>)
    ensures var b := Header(count, next) + rest;
            && b[..8] == LE(LOG_MAGIC, 8) && b[8..12] == LE(LOG_VERSION, 4) && b[12..16] == LE(count, 4)
            && b[16..24] == LE(next, 8) && b[HEADER_SIZE..] == rest
  {
    hide LE;
  }

  lemma DecodeAfterHeader(count: nat, next: nat, rest: seq<byte>)
    ensures Decode(Header(count, next) + rest) ==
            match DecodeEntries(rest, FromLE(LE(count, 4)))
            case Ok(es) => Ok(Loaded(es, if FromLE(LE(next, 8)) == 0 then 1 else FromLE(LE(next, 8))))
            case Err(x) => Err(x)
  {
    hide LE, FromLE, DecodeEntries, Header;
    HeaderFields(count, next, rest);
    U64Field(LOG_MAGIC);
    U32Field(LOG_VERSION);
  }

  /** Load rebuilds the persisted log exactly when every count, id, size and name fits its field. */
  lemma RoundTrip(log: Loaded)
    ensures Decode(Encode(log)) == Ok(log) <==> StorableLog(log)
  {
    hide LE, FromLE, DecodeEntries, EncodeEntries, Header, Storable;
    var body := EncodeEntries(log.entries);
    DecodeAfterHeader(|log.entries|, log.nextId, body);
    U32Field(|log.entries|);
    U64Field(log.nextId);
    EntriesRoundTrip(log.entries);
    DecodedCount(body, FromLE(LE(|log.entries|, 4)));
  }

  lemma {:induction false} DecodedCount(b: seq<byte>, n: nat)
    ensures DecodeEntries(b, n).Ok? ==> |DecodeEntries(b, n).value| == n
  {
    if n > 0 && |b| >= RECORD_SIZE && |b| >= RecordLength(b) {
      DecodedCount(b[RecordLength(b)..], n - 1);
    }
  }

  // ----- Truncated images

  lemma CutRecord(e: Entry, rest: seq<byte>, k: nat)
    requires |e.extents| < U32_LIMIT && RECORD_SIZE <= k <= |EncodeEntry(e) + rest|
    ensures RecordLength((EncodeEntry(e) + rest)[..k]) == |EncodeEntry(e)|
  {
    hide LE, FromLE, EncodeExtents, RecordHead;
    var tail := (EncodeExtents(e.extents) + rest)[..k - RECORD_SIZE];
    assert (EncodeEntry(e) + rest)[..k] == RecordHead(e) + tail;
    RecordFields(e, tail);
    U32Field(|e.extents|);
  }

  lemma CutList(first: seq<byte>, rest: seq<byte>, k: nat, n: nat)
    requires n > 0 && |first| >= RECORD_SIZE && k < |first + rest|
    requires k >= RECORD_SIZE ==> RecordLength((first + rest)[..k]) == |first|
    requires k >= |first| ==> DecodeEntries(rest[..k - |first|], n - 1).Err?
    ensures DecodeEntries((first + rest)[..k], n).Err?
  {
    hide FromLE, RecordLength, DecodeEntry;
    if k >= |first| {
      assert (first + rest)[..k][|first|..] == rest[..k - |first|];
    }
  }

  lemma {:induction false} EntriesPrefix(es: seq<Entry>, k: nat)
    requires forall e :: e in es ==> Storable(e)
    requires k < |EncodeEntries(es)|
    ensures DecodeEntries(EncodeEntries(es)[..k], |es|).Err?
  {
    hide EncodeEntry, DecodeEntries, RecordLength;
    var first, rest := EncodeEntry(es[0]), EncodeEntries(es[1..]);
    assert es[0] in es;
    if k >= RECORD_SIZE { CutRecord(es[0], rest, k); }
    if k >= |first| { EntriesPrefix(es[1..], k - |first|); }
    CutList(first, rest, k, |es|);
  }

  /** A file cut short anywhere is never mistaken for a log. */
  lemma PrefixRejected(log: Loaded, k: nat)
    requires StorableLog(log)
    requires k < |Encode(log)|
    ensures Decode(Encode(log)[..k]).Err?
  {
    hide LE, FromLE, DecodeEntries, EncodeEntries, Header, Storable;
    if k >= HEADER_SIZE {
      var cut := EncodeEntries(log.entries)[..k - HEADER_SIZE];
      assert Encode(log)[..k] == Header(|log.entries|, log.nextId) + cut;
      DecodeAfterHeader(|log.entries|, log.nextId, cut);
      U32Field(|log.entries|);
      EntriesPrefix(log.entries, k - HEADER_SIZE);
    }
  }

  // ----- Where each byte of the file lies

  lemma MagicBytes()
    ensures LE(LOG_MAGIC, 8) == [0x54, 0x55, 0x54, 0x49, 0x54, 0x4C, 0x4F, 0x47]
  {
    var high := 0x474F_4C54;
    LEFour(high);
    assert LE(0x47_4F4C_5449, 5) == [0x49] + LE(high, 4);
    assert LE(0x474F_4C54_4954, 6) == [0x54] + LE(0x47_4F4C_5449, 5);
    assert LE(0x47_4F4C_5449_5455, 7) == [0x55] + LE(0x474F_4C54_4954, 6);
    assert LE(LOG_MAGIC, 8) == [0x54] + LE(0x47_4F4C_5449_5455, 7);
  }

  lemma VersionBytes()
    ensures LE(LOG_VERSION, 4) == [1, 0, 0, 0]
  {
    LEFour(LOG_VERSION);
  }

  /** "TUTITLOG", version 1, the number of entries, the next id, sixteen zeros. */
  lemma HeaderLayout(count: nat, next: nat)
    ensures var h := Header(count, next);
            && |h| == 40 && h[..12] == [0x54, 0x55, 0x54, 0x49, 0x54, 0x4C, 0x4F, 0x47, 1, 0, 0, 0]
            && (forall i :: 0 <= i < 4 ==> h[12 + i] == ByteOf(count, i))
            && (forall i :: 0 <= i < 8 ==> h[16 + i] == ByteOf(next, i))
            && (forall i :: 24 <= i < 40 ==> h[i] == 0)
  {
    hide LE, ByteOf;
    MagicBytes();
    VersionBytes();
    var h := Header(count, next);
    assert h[..12] == LE(LOG_MAGIC, 8) + LE(LOG_VERSION, 4);
    forall i | 0 <= i < 4 ensures h[12 + i] == ByteOf(count, i) { LittleEndian(count, 4, i); }
    forall i | 0 <= i < 8 ensures h[16 + i] == ByteOf(next, i) { LittleEndian(next, 8, i); }
  }

  /** Id, size, number of extents, four zeros, then the name padded to 128 bytes. */
  lemma RecordLayout(e: Entry)
    ensures var b := RecordHead(e);
            && |b| == 152
            && (forall i :: 0 <= i < 8 ==> b[i] == ByteOf(e.fileId, i))
            && (forall i :: 0 <= i < 8 ==> b[8 + i] == ByteOf(e.size, i))
            && (forall i :: 0 <= i < 4 ==> b[16 + i] == ByteOf(|e.extents|, i))
            && (forall i :: 20 <= i < 24 ==> b[i] == 0)
            && (forall i :: 0 <= i < 127 ==> b[24 + i] == if i < |e.name| then e.name[i] else 0)
            && b[151] == 0
  {
    hide LE, ByteOf;
    LEFour(0);
    var b := RecordHead(e);
    forall i | 0 <= i < 8 ensures b[i] == ByteOf(e.fileId, i) { LittleEndian(e.fileId, 8, i); }
    forall i | 0 <= i < 8 ensures b[8 + i] == ByteOf(e.size, i) { LittleEndian(e.size, 8, i); }
    forall i | 0 <= i < 4 ensures b[16 + i] == ByteOf(|e.extents|, i) { LittleEndian(|e.extents|, 4, i); }
  }

  /** Sixteen bytes an extent: first block, then number of blocks. */
  lemma {:induction false} ExtentLayout(xs: seq<Extent>, j: nat, i: nat)
    requires j < |xs| && i < 8
    ensures EncodeExtents(xs)[16 * j + i] == ByteOf(xs[j].startLba, i)
    ensures EncodeExtents(xs)[16 * j + 8 + i] == ByteOf(xs[j].lengthBlocks, i)
  {
    hide LE, ByteOf;
    if j == 0 {
      LittleEndian(xs[0].startLba, 8, i);
      LittleEndian(xs[0].lengthBlocks, 8, i);
    } else {
      ExtentLayout(xs[1..], j - 1, i);
    }
  }

  /** Where the record of entry k begins. */
  ghost function OffsetOf(es: seq<Entry>, k: nat): nat
    requires k <= |es|
  {
    if k == 0 then 40 else 152 + 16 * |es[0].extents| + OffsetOf(es[1..], k - 1)
  }

  /** The records follow the header without gaps, in the order of the vector, each with its
      extents behind it. */
  lemma ImageLayout(log: Loaded, k: nat)
    requires k < |log.entries|
    ensures var at, e, file := OffsetOf(log.entries, k), log.entries[k], Encode(log);
            && file[..40] == Header(|log.entries|, log.nextId)
            && at + 152 + 16 * |e.extents| <= |file| && |file| == OffsetOf(log.entries, |log.entries|)
            && file[at..at + 152] == RecordHead(e)
            && file[at + 152..at + 152 + 16 * |e.extents|] == EncodeExtents(e.extents)
  {
    hide LE, Header, RecordHead, EncodeExtents, EncodeEntries, OffsetOf;
    RecordAt(log.entries, k);
    var at, n := OffsetOf(log.entries, k) - 40, 16 * |log.entries[k].extents|;
    var head, body := Header(|log.entries|, log.nextId), EncodeEntries(log.entries);
    SliceAfter(head, body, at, at + 152);
    SliceAfter(head, body, at + 152, at + 152 + n);
    assert (head + body)[..40] == head;
  }

  lemma {:induction false} RecordAt(es: seq<Entry>, k: nat)
    requires k < |es|
    ensures var at, e, body := OffsetOf(es, k) - 40, es[k], EncodeEntries(es);
            && 0 <= at && at + 152 + 16 * |e.extents| <= |body| && |body| == OffsetOf(es, |es|) - 40
            && body[at..at + 152] == RecordHead(e)
            && body[at + 152..at + 152 + 16 * |e.extents|] == EncodeExtents(e.extents)
  {
    hide LE, RecordHead, EncodeExtents, EncodeEntry, EncodeEntries, OffsetOf;
    var first, rest := EncodeEntry(es[0]), EncodeEntries(es[1..]);
    BodyLength(es);
    FirstAndRest(es);
    OffsetStep(es, k);
    if k == 0 {
      Cut(first, rest);
      EntryParts(es[0]);
    } else {
      RecordAt(es[1..], k - 1);
      var at, n := OffsetOf(es[1..], k - 1) - 40, 16 * |es[k].extents|;
      SliceAfter(first, rest, at, at + 152);
      SliceAfter(first, rest, at + 152, at + 152 + n);
    }
  }

  lemma OffsetStep(es: seq<Entry>, k: nat)
    requires k < |es|
    ensures OffsetOf(es, k) == if k == 0 then 40 else |EncodeEntry(es[0])| + OffsetOf(es[1..], k - 1)
  {
  }

  lemma EntryParts(e: Entry)
    ensures EncodeEntry(e)[..152] == RecordHead(e) && EncodeEntry(e)[152..] == EncodeExtents(e.extents)
  {
    hide RecordHead, EncodeExtents;
  }

  lemma FirstAndRest(es: seq<Entry>)
    requires es != []
    ensures EncodeEntries(es) == EncodeEntry(es[0]) + EncodeEntries(es[1..])
  {
  }

  lemma Cut(first: seq<byte>, rest: seq<byte>)
    requires |first| >= 152
    ensures (first + rest)[..152] == first[..152] && (first + rest)[152..|first|] == first[152..]
  {
  }

  lemma SliceAfter(first: seq<byte>, rest: seq<byte>, a: nat, b: nat)
    requires a <= b <= |rest|
    ensures (first + rest)[|first| + a..|first| + b] == rest[a..b]
  {
  }

  lemma {:induction false} BodyLength(es: seq<Entry>)
    ensures |EncodeEntries(es)| == OffsetOf(es, |es|) - 40
  {
    if es != [] { BodyLength(es[1..]); }
  }

  lemma {:induction false} EntryErrors(b: seq<byte>, n: nat)
    ensures var r := DecodeEntries(b, n); r.Err? ==> r.error.ShortRecord? || r.error.ShortExtents?
  {
    if n > 0 && |b| >= RECORD_SIZE && |b| >= RecordLength(b) {
      EntryErrors(b[RecordLength(b)..], n - 1);
    }
  }

  /** Which files are refused for their header, by their first bytes. */
  lemma HeaderErrors(b: seq<byte>)
    ensures Decode(b) == Err(ShortHeader) <==> |b| < 40
    ensures Decode(b) == Err(BadMagic) <==> |b| >= 40 && b[..8] != [0x54, 0x55, 0x54, 0x49, 0x54, 0x4C, 0x4F, 0x47]
    ensures Decode(b) == Err(BadVersion) <==>
            |b| >= 40 && b[..8] == [0x54, 0x55, 0x54, 0x49, 0x54, 0x4C, 0x4F, 0x47] && b[8..12] != [1, 0, 0, 0]
  {
    hide LE, FromLE, DecodeEntries;
    if |b| >= 40 {
      MagicBytes();
      VersionBytes();
      FromLEUnique(b[..8]);
      FromLEUnique(b[8..12]);
      U64Field(LOG_MAGIC);
      U32Field(LOG_VERSION);
      EntryErrors(b[HEADER_SIZE..], FromLE(b[12..16]));
    }
  }

  /** What a file that loads gives: as many entries as its header says, and its next id, or 1 where
      that field is zero. */
  lemma LoadedHeader(b: seq<byte>)
    requires Decode(b).Ok?
    ensures |b| >= 40 && |Decode(b).value.entries| == FromLE(b[12..16])
    ensures Decode(b).value.nextId == if b[16..24] == [0, 0, 0, 0, 0, 0, 0, 0] then 1 else FromLE(b[16..24])
  {
    hide FromLE, DecodeEntries;
    DecodedCount(b[HEADER_SIZE..], FromLE(b[12..16]));
    ZeroIffZeros(b[16..24]);
    assert b[16..24] == Zeros(8) <==> b[16..24] == [0, 0, 0, 0, 0, 0, 0, 0];
  }

  lemma {:induction false} ZeroIffZeros(b: seq<byte>)
    ensures FromLE(b) == 0 <==> b == Zeros(|b|)
  {
    if b != [] {
      ZeroIffZeros(b[1..]);
      assert b == [b[0]] + b[1..];
      assert Zeros(|b|) == [0] + Zeros(|b| - 1);
    }
  }

  // ----- The writing and reading loops

  lemma {:induction false} EncodeAppend(es: seq<Entry>, e: Entry)
    ensures EncodeEntries(es + [e]) == EncodeEntries(es) + EncodeEntry(e)
  {
    if es == [] {
      assert [e][1..] == [];
      assert EncodeEntries([e]) == EncodeEntry(e) + EncodeEntries([]);
    } else {
      assert (es + [e])[1..] == es[1..] + [e];
      EncodeAppend(es[1..], e);
    }
  }

  method Write(entries: seq<Entry>, nextId: nat) returns (out: seq<byte>)
    ensures out == Encode(Loaded(entries, nextId))
    ensures |out| >= 40 && out[..12] == [0x54, 0x55, 0x54, 0x49, 0x54, 0x4C, 0x4F, 0x47, 1, 0, 0, 0]
  {
    HeaderLayout(|entries|, nextId);
    var body := WriteEntries(entries);
    out := Header(|entries|, nextId) + body;
  }

  method WriteEntries(entries: seq<Entry>) returns (body: seq<byte>)
    ensures body == EncodeEntries(entries)
  {
    body := [];
    for i := 0 to |entries|
      invariant body == EncodeEntries(entries[..i])
    {
      hide LE, NameField, EncodeExtents, RecordHead;
      EncodeAppend(entries[..i], entries[i]);
      assert entries[..i + 1] == entries[..i] + [entries[i]];
      var record := RecordHead(entries[i]);
      if entries[i].extents != [] {
        record := record + EncodeExtents(entries[i].extents);
      }
      body := body + record;
    }
    assert entries[..|entries|] == entries;
  }

  /** Entries already read, followed by what the rest of the file still holds. */
  ghost function Resume(done: seq<Entry>, rest: seq<byte>, n: nat): Result<seq<Entry>> {
    match DecodeEntries(rest, n)
    case Ok(es) => Ok(done + es)
    case Err(x) => Err(x)
  }

  lemma ResumeStep(done: seq<Entry>, rest: seq<byte>, n: nat)
    requires n > 0 && |rest| >= RECORD_SIZE && |rest| >= RecordLength(rest)
    ensures Resume(done, rest, n) == Resume(done + [DecodeEntry(rest)], rest[RecordLength(rest)..], n - 1)
  {
    var tail := DecodeEntries(rest[RecordLength(rest)..], n - 1);
    if tail.Ok? {
      assert done + ([DecodeEntry(rest)] + tail.value) == done + [DecodeEntry(rest)] + tail.value;
    }
  }

  method ReadEntries(body: seq<byte>, count: nat) returns (r: Result<seq<Entry>>)
    ensures r == DecodeEntries(body, count)
  {
    var entries, rest := [], body;
    assert Resume([], body, count) == DecodeEntries(body, count) by {
      assert DecodeEntries(body, count).Ok? ==>
             [] + DecodeEntries(body, count).value == DecodeEntries(body, count).value;
    }
    for i := 0 to count
      invariant Resume(entries, rest, count - i) == DecodeEntries(body, count)
    {
      if |rest| < RECORD_SIZE { return Err(ShortRecord); }
      if |rest| < RecordLength(rest) { return Err(ShortExtents); }
      ResumeStep(entries, rest, count - i);
      entries := entries + [DecodeEntry(rest)];
      rest := rest[RecordLength(rest)..];
    }
    assert entries + [] == entries;
    return Ok(entries);
  }

  method Read(file: seq<byte>) returns (r: Result<Loaded>)
    ensures r == Decode(file)
    ensures |file| >= 40 && file[..12] == [0x54, 0x55, 0x54, 0x49, 0x54, 0x4C, 0x4F, 0x47, 1, 0, 0, 0] <==>
            !(r.Err? && (r.error.ShortHeader? || r.error.BadMagic? || r.error.BadVersion?))
  {
    HeaderErrors(file);
    if |file| >= 40 { assert file[..12] == file[..8] + file[8..12]; }
    if |file| < HEADER_SIZE { return Err(ShortHeader); }
    if FromLE(file[..8]) != LOG_MAGIC { return Err(BadMagic); }
    if FromLE(file[8..12]) != LOG_VERSION { return Err(BadVersion); }
    var next := FromLE(file[16..24]);
    var entries := ReadEntries(file[HEADER_SIZE..], FromLE(file[12..16]));
    r := match entries
         case Ok(es) => Ok(Loaded(es, if next == 0 then 1 else next))
         case Err(x) => Err(x);
  }
}
