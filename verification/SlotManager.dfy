/** The older file table (filesystems/ext4/libgeminifs/nvme_file.cpp): fixed slots, a bitmap of the
    used ones that is written out only every so many changes, and files named by slot number. */
module FileNames {
  import opened Division

  const UINT32_MAX: nat := 0xffff_ffff
  const U32: nat := 0x1_0000_0000
  const U64: nat := 0x1_0000_0000_0000_0000

  predicate IsDigit(c: char) {
    '0' <= c <= '9'
  }

  predicate IsSpace(c: char) {
    c == ' ' || '\t' <= c <= '\r'
  }

  function DigitOf(d: nat): (c: char)
    requires d < 10
    ensures IsDigit(c) && c as int - '0' as int == d
  {
    ('0' as int + d) as char
  }

  /** std::to_string. */
  function Decimal(n: nat): (s: string)
    ensures s != [] && forall i :: 0 <= i < |s| ==> IsDigit(s[i])
  {
    if n < 10 then [DigitOf(n)] else Decimal(n / 10) + [DigitOf(n % 10)]
  }

  function Value(digits: string): nat
    requires forall i :: 0 <= i < |digits| ==> IsDigit(digits[i])
  {
    if digits == [] then 0
    else
      assert IsDigit(digits[|digits| - 1]);
      10 * Value(digits[..|digits| - 1]) + (digits[|digits| - 1] as int - '0' as int)
  }

  function LeadingDigits(s: string): (d: string)
    ensures forall i :: 0 <= i < |d| ==> IsDigit(d[i])
  {
    if s == [] || !IsDigit(s[0]) then [] else [s[0]] + LeadingDigits(s[1..])
  }

  function SkipSpaces(s: string): string {
    if s == [] || !IsSpace(s[0]) then s else SkipSpaces(s[1..])
  }

  /** The digits at the front of what is left, cut to 32 bits; UINT32_MAX without any, or if they
      exceed 64 bits. */
  function ParseDigits(s: string, negative: bool): nat {
    var digits := LeadingDigits(s);
    if digits == [] then UINT32_MAX
    else if Value(digits) >= U64 then UINT32_MAX
    else if negative && Value(digits) > 0 then (U64 - Value(digits)) % U32
    else Value(digits) % U32
  }

  /** std::stoul in base 10, its exceptions mapped to UINT32_MAX and its 64-bit result cut to 32. */
  function ParseId(name: string): nat {
    var s := SkipSpaces(name);
    if s != [] && (s[0] == '-' || s[0] == '+') then ParseDigits(s[1..], s[0] == '-') else ParseDigits(s, false)
  }

  lemma {:induction false} AllDigits(s: string)
    requires forall i :: 0 <= i < |s| ==> IsDigit(s[i])
    ensures LeadingDigits(s) == s
  {
    if s != [] { AllDigits(s[1..]); }
  }

  lemma {:induction false} ValueOfDecimal(n: nat)
    ensures Value(Decimal(n)) == n
  {
    var s := Decimal(n);
    if n >= 10 {
      ValueOfDecimal(n / 10);
      assert s[..|s| - 1] == Decimal(n / 10);
    } else {
      assert s[..0] == [];
    }
  }

  function Power10(k: nat): (p: nat)
    ensures p > 0
  {
    if k == 0 then 1 else 10 * Power10(k - 1)
  }

  /** A slot's name has the most significant digit first. */
  lemma {:induction false} DecimalDigit(n: nat, i: nat)
    requires i < |Decimal(n)|
    ensures var s := Decimal(n); s[|s| - 1 - i] as int - '0' as int == n / Power10(i) % 10
  {
    if i == 0 {
      assert n < 10 ==> n % 10 == n;
    } else {
      DecimalDigit(n / 10, i - 1);
      DivideTwice(n, 10, Power10(i - 1));
      assert Decimal(n)[|Decimal(n)| - 1 - i] == Decimal(n / 10)[|Decimal(n / 10)| - 1 - (i - 1)];
    }
  }

  /** And no more digits than the number needs. */
  lemma {:induction false} DecimalSize(n: nat)
    ensures n < Power10(|Decimal(n)|)
    ensures n > 0 ==> Power10(|Decimal(n)| - 1) <= n
  {
    if n >= 10 {
      DecimalSize(n / 10);
    }
  }

  lemma {:induction false} ZeroInFront(digits: string)
    requires forall i :: 0 <= i < |digits| ==> IsDigit(digits[i])
    ensures Value("0" + digits) == Value(digits)
  {
    var s := "0" + digits;
    if digits == [] {
      assert s[..0] == [];
    } else {
      assert s[..|s| - 1] == "0" + digits[..|digits| - 1];
      ZeroInFront(digits[..|digits| - 1]);
    }
  }

  // ----- What any other string parses to

  lemma {:induction false} DigitsThen(digits: string, rest: string)
    requires (forall i :: 0 <= i < |digits| ==> IsDigit(digits[i])) && (rest == [] || !IsDigit(rest[0]))
    ensures LeadingDigits(digits + rest) == digits
  {
    if digits == [] {
      assert digits + rest == rest;
    } else {
      assert (digits + rest)[1..] == digits[1..] + rest;
      DigitsThen(digits[1..], rest);
    }
  }

  /** A string that begins with no digit, space or sign is no number. */
  lemma NotANumber(name: string)
    requires name == [] || !('0' <= name[0] <= '9' || name[0] == ' ' || '\t' <= name[0] <= '\r' ||
                             name[0] == '+' || name[0] == '-')
    ensures ParseId(name) == 0xffff_ffff
  {
  }

  /** Spaces in front do not matter. */
  lemma SpaceInFront(c: char, name: string)
    requires c == ' ' || '\t' <= c <= '\r'
    ensures ParseId([c] + name) == ParseId(name)
  {
    assert ([c] + name)[1..] == name;
  }

  /** Digits count up to the first other character, modulo 2^32; 2^64 and more is no number. */
  lemma DigitsParse(digits: string, rest: string)
    requires digits != [] && (forall i :: 0 <= i < |digits| ==> '0' <= digits[i] <= '9')
    requires rest == [] || !('0' <= rest[0] <= '9')
    ensures ParseId(digits + rest) == ParseId("+" + (digits + rest)) ==
            if Value(digits) < 0x1_0000_0000_0000_0000 then Value(digits) % 0x1_0000_0000 else 0xffff_ffff
    ensures ParseId("-" + (digits + rest)) ==
            if Value(digits) < 0x1_0000_0000_0000_0000 then (0x1_0000_0000_0000_0000 - Value(digits)) % 0x1_0000_0000
            else 0xffff_ffff
  {
    hide ParseDigits, ParseId, Value;
    NumberIs(digits, rest, false);
    NumberIs(digits, rest, true);
    Unsigned(digits + rest);
    Signed(digits + rest);
  }

  lemma Unsigned(s: string)
    requires s != [] && IsDigit(s[0])
    ensures ParseId(s) == ParseDigits(s, false)
  {
    hide ParseDigits;
  }

  lemma Signed(s: string)
    ensures ParseId("+" + s) == ParseDigits(s, false) && ParseId("-" + s) == ParseDigits(s, true)
  {
    hide ParseDigits;
    assert ("+" + s)[1..] == s && ("-" + s)[1..] == s;
  }

  lemma NumberIs(digits: string, rest: string, negative: bool)
    requires digits != [] && (forall i :: 0 <= i < |digits| ==> IsDigit(digits[i])) && (rest == [] || !IsDigit(rest[0]))
    ensures ParseDigits(digits + rest, negative) ==
            if Value(digits) >= U64 then UINT32_MAX
            else (if negative then U64 - Value(digits) else Value(digits)) % U32
  {
    hide Value, LeadingDigits;
    DigitsThen(digits, rest);
  }

  /** A sign with no digit behind it is no number. */
  lemma SignAlone(rest: string)
    requires rest == [] || !('0' <= rest[0] <= '9')
    ensures ParseId("+" + rest) == ParseId("-" + rest) == 0xffff_ffff
  {
    Signed(rest);
  }

  /** A slot number survives the trip through its name. */
  lemma NameRoundTrip(id: nat)
    requires id < U32
    ensures ParseId(Decimal(id)) == id
  {
    var s := Decimal(id);
    assert IsDigit(s[0]);
    AllDigits(s);
    ValueOfDecimal(id);
  }
}

module SlotManager {
  import opened Wrappers
  import opened FileNames

  datatype Desc = Desc(slot: nat, name: string, size: nat, time: nat)

  const NAME_LIMIT: nat := 16

  // ----- Bits

  function Bit(b: bv8, k: nat): bool
    requires k < 8
  {
    (b >> k) & 1 == 1
  }

  lemma SetBit(b: bv8, k: nat, j: nat)
    requires k < 8 && j < 8
    ensures Bit(b | (1 << k), j) == (j == k || Bit(b, j))
  {
  }

  function BitAt(buffer: seq<bv8>, i: nat): bool
    requires i < 8 * |buffer|
  {
    Bit(buffer[i / 8], i % 8)
  }

  lemma SetBitAt(buffer: seq<bv8>, i: nat, j: nat)
    requires i < 8 * |buffer| && j < 8 * |buffer|
    ensures BitAt(buffer[i / 8 := buffer[i / 8] | (1 << (i % 8))], j) == (j == i || BitAt(buffer, j))
  {
    if j / 8 == i / 8 {
      SetBit(buffer[i / 8], i % 8, j % 8);
    }
  }

  lemma ZeroBits(k: nat)
    requires k < 8
    ensures !Bit(0, k)
  {
  }

  /** The bitmap as bytes, least significant bit first. */
  method Pack(bits: seq<bool>, bytes: nat) returns (buffer: seq<bv8>)
    requires |bits| == 8 * bytes
    ensures |buffer| == bytes && forall i :: 0 <= i < |bits| ==> BitAt(buffer, i) == bits[i]
    ensures forall j :: 0 <= j < bytes ==> buffer[j] == ByteFrom(bits[8 * j..8 * j + 8])
  {
    buffer := seq(bytes, _ => 0);
    forall i | 0 <= i < |bits| ensures !BitAt(buffer, i) { ZeroBits(i % 8); }
    for i := 0 to |bits|
      invariant |buffer| == bytes
      invariant forall j :: 0 <= j < i ==> BitAt(buffer, j) == bits[j]
      invariant forall j :: i <= j < |bits| ==> !BitAt(buffer, j)
    {
      if bits[i] {
        var next := buffer[i / 8 := buffer[i / 8] | (1 << (i % 8))];
        forall j | 0 <= j < |bits| ensures BitAt(next, j) == (j == i || BitAt(buffer, j)) {
          SetBitAt(buffer, i, j);
        }
        buffer := next;
      }
    }
    forall j | 0 <= j < bytes ensures buffer[j] == ByteFrom(bits[8 * j..8 * j + 8]) {
      EightBits(buffer, bits, j);
    }
  }

  /** Eight slots as a byte, the first worth 1 and the last 128. */
  function ByteFrom(b: seq<bool>): bv8
    requires |b| == 8
  {
    (if b[0] then 1 else 0) + (if b[1] then 2 else 0) + (if b[2] then 4 else 0) + (if b[3] then 8 else 0) +
    (if b[4] then 16 else 0) + (if b[5] then 32 else 0) + (if b[6] then 64 else 0) + (if b[7] then 128 else 0)
  }

  lemma ByteIs(b: bv8)
    ensures b == (if Bit(b, 0) then 1 else 0) + (if Bit(b, 1) then 2 else 0) + (if Bit(b, 2) then 4 else 0) +
                 (if Bit(b, 3) then 8 else 0) + (if Bit(b, 4) then 16 else 0) + (if Bit(b, 5) then 32 else 0) +
                 (if Bit(b, 6) then 64 else 0) + (if Bit(b, 7) then 128 else 0)
  {
  }

  lemma EightBits(buffer: seq<bv8>, bits: seq<bool>, j: nat)
    requires |bits| == 8 * |buffer| && j < |buffer|
    requires forall i :: 0 <= i < |bits| ==> BitAt(buffer, i) == bits[i]
    ensures buffer[j] == ByteFrom(bits[8 * j..8 * j + 8])
  {
    hide Bit;
    ByteIs(buffer[j]);
    forall k | 0 <= k < 8 ensures Bit(buffer[j], k) == bits[8 * j..8 * j + 8][k] {
      assert BitAt(buffer, 8 * j + k) == bits[8 * j + k];
      assert (8 * j + k) / 8 == j && (8 * j + k) % 8 == k;
    }
  }

  // ----- What a reload finds

  /** Slots whose bit is set and whose record names that slot. */
  ghost function Loaded(buffer: seq<bv8>, records: seq<Desc>): map<nat, Desc>
    requires |records| == 8 * |buffer|
  {
    map i | 0 <= i < |records| && BitAt(buffer, i) && records[i].slot == i :: records[i]
  }

  /** Slots on which memory and disk disagree. */
  ghost function Differ(bits: seq<bool>, buffer: seq<bv8>): set<nat>
    requires |bits| == 8 * |buffer|
  {
    set i | 0 <= i < |bits| && bits[i] != BitAt(buffer, i)
  }

  lemma Smaller(a: set<nat>, b: set<nat>)
    requires a <= b
    ensures |a| <= |b|
  {
    assert b == a + (b - a);
  }

  /** The records once the C library's buffer has reached the file. */
  function Flushed(records: seq<Desc>, unflushed: Option<Desc>): (out: seq<Desc>)
    ensures |out| == |records|
  {
    if unflushed.Some? && unflushed.value.slot < |records| then records[unflushed.value.slot := unflushed.value] else records
  }

  /** A slot in use, here and on disk, whose new record is still in the C library's buffer while the
      file holds the record of the file that had the slot before. */
  ghost function Reused(bits: seq<bool>, buffer: seq<bv8>, records: seq<Desc>, unflushed: Option<Desc>): set<nat>
    requires |bits| == |records| == 8 * |buffer|
  {
    set i | 0 <= i < |bits| && unflushed.Some? && i == unflushed.value.slot &&
            bits[i] && BitAt(buffer, i) && records[i] != unflushed.value
  }

  /** The slots that a crash now would bring back changed. */
  ghost function LostOf(bits: seq<bool>, buffer: seq<bv8>, records: seq<Desc>, unflushed: Option<Desc>): set<nat>
    requires |bits| == |records| == 8 * |buffer|
  {
    Differ(bits, buffer) + Reused(bits, buffer, records, unflushed)
  }

  /** A bit is set exactly when its slot is in the table under its own number, and its record has
      been written, to the file or to the buffer in front of it. */
  ghost predicate Table(bits: seq<bool>, records: seq<Desc>, unflushed: Option<Desc>, files: map<nat, Desc>)
    requires |bits| == |records|
  {
    && (forall i :: 0 <= i < |bits| ==> (bits[i] <==> i in files))
    && (forall i :: i in files ==> i < |records| && files[i].slot == i && Flushed(records, unflushed)[i] == files[i])
  }

  ghost predicate SoundRecords(buffer: seq<bv8>, records: seq<Desc>)
    requires |records| == 8 * |buffer|
  {
    forall i :: 0 <= i < |records| && BitAt(buffer, i) ==> records[i].slot == i
  }

  /** What a new record does to the file: the one kept back before reaches it, the new one does so
      unless it is kept back in turn. */
  function Rewritten(records: seq<Desc>, unflushed: Option<Desc>, desc: Desc, keptBack: bool): (out: seq<Desc>)
    ensures |out| == |records|
  {
    Flushed(Flushed(records, unflushed), if keptBack then None else Some(desc))
  }

  function Waiting(desc: Desc, keptBack: bool): Option<Desc> {
    if keptBack then Some(desc) else None
  }

  lemma FillTable(bits: seq<bool>, records: seq<Desc>, unflushed: Option<Desc>, files: map<nat, Desc>, desc: Desc, keptBack: bool)
    requires |bits| == |records| && desc.slot < |bits|
    requires Table(bits, records, unflushed, files)
    ensures Table(bits[desc.slot := true], Rewritten(records, unflushed, desc, keptBack), Waiting(desc, keptBack),
                  files[desc.slot := desc])
  {
  }

  lemma FillLost(bits: seq<bool>, buffer: seq<bv8>, records: seq<Desc>, unflushed: Option<Desc>, desc: Desc, keptBack: bool)
    requires |bits| == |records| == 8 * |buffer|
    requires desc.slot < |bits| && !bits[desc.slot]
    ensures LostOf(bits[desc.slot := true], buffer, Rewritten(records, unflushed, desc, keptBack), Waiting(desc, keptBack)) <=
            LostOf(bits, buffer, records, unflushed) + {desc.slot}
  {
    hide BitAt;
  }

  lemma FillSound(buffer: seq<bv8>, records: seq<Desc>, unflushed: Option<Desc>, desc: Desc, keptBack: bool)
    requires |records| == 8 * |buffer| && desc.slot < |records|
    requires SoundRecords(buffer, records)
    ensures SoundRecords(buffer, Rewritten(records, unflushed, desc, keptBack))
  {
    hide BitAt;
  }

  lemma FillKeeps(bits: seq<bool>, buffer: seq<bv8>, records: seq<Desc>, unflushed: Option<Desc>, files: map<nat, Desc>,
                  desc: Desc, keptBack: bool, pending: nat)
    requires |bits| == |records| == 8 * |buffer| && desc.slot < |bits| && desc.slot !in files
    requires Table(bits, records, unflushed, files) && |LostOf(bits, buffer, records, unflushed)| <= pending
    ensures var recs, wait := Rewritten(records, unflushed, desc, keptBack), Waiting(desc, keptBack);
            && Table(bits[desc.slot := true], recs, wait, files[desc.slot := desc])
            && |LostOf(bits[desc.slot := true], buffer, recs, wait)| <= pending + 1
            && (SoundRecords(buffer, records) ==> SoundRecords(buffer, recs))
  {
    FreeSlot(bits, records, unflushed, files, desc.slot);
    hide Table, LostOf, Differ, SoundRecords, BitAt, Flushed, Rewritten, Waiting;
    FillTable(bits, records, unflushed, files, desc, keptBack);
    FillLost(bits, buffer, records, unflushed, desc, keptBack);
    if SoundRecords(buffer, records) { FillSound(buffer, records, unflushed, desc, keptBack); }
    LostOne(LostOf(bits, buffer, records, unflushed),
            LostOf(bits[desc.slot := true], buffer, Rewritten(records, unflushed, desc, keptBack), Waiting(desc, keptBack)),
            desc.slot, pending);
  }

  lemma DropTable(bits: seq<bool>, records: seq<Desc>, unflushed: Option<Desc>, files: map<nat, Desc>, slot: nat)
    requires |bits| == |records| && slot < |bits|
    requires Table(bits, records, unflushed, files)
    ensures Table(bits[slot := false], records, unflushed, files - {slot})
  {
  }

  lemma DropLost(bits: seq<bool>, buffer: seq<bv8>, records: seq<Desc>, unflushed: Option<Desc>, slot: nat)
    requires |bits| == |records| == 8 * |buffer| && slot < |bits|
    ensures LostOf(bits[slot := false], buffer, records, unflushed) <= LostOf(bits, buffer, records, unflushed) + {slot}
  {
    hide BitAt;
  }

  lemma FlushTable(bits: seq<bool>, buffer: seq<bv8>, records: seq<Desc>, unflushed: Option<Desc>, files: map<nat, Desc>)
    requires |bits| == |records| == 8 * |buffer|
    requires Table(bits, records, unflushed, files) && forall i :: 0 <= i < |bits| ==> BitAt(buffer, i) == bits[i]
    ensures Table(bits, Flushed(records, unflushed), None, files)
    ensures SoundRecords(buffer, Flushed(records, unflushed))
    ensures Differ(bits, buffer) == {} && LostOf(bits, buffer, Flushed(records, unflushed), None) == {}
  {
    hide BitAt;
  }

  lemma LostOne(lost: set<nat>, after: set<nat>, slot: nat, pending: nat)
    requires after <= lost + {slot} && |lost| <= pending
    ensures |after| <= pending + 1
  {
    Smaller(after, lost + {slot});
  }

  class FileManager {
    const bytes: nat
    const threshold: nat
    // Memory
    var bits: seq<bool>
    var files: map<nat, Desc>
    var pending: nat
    /** The last record written, while it waits in the C library's buffer. */
    var unflushed: Option<Desc>
    // Disk
    var buffer: seq<bv8>
    var records: seq<Desc>
    var count: nat

    ghost predicate Shaped()
      reads this
    {
      && |bits| == |records| == 8 * bytes && |buffer| == bytes && 8 * bytes <= UINT32_MAX
      && (unflushed.Some? ==> unflushed.value.slot < |records| && pending > 0)
    }

    ghost function Lost(): set<nat>
      requires Shaped()
      reads this
    {
      LostOf(bits, buffer, records, unflushed)
    }

    /** What a crash would lose is covered by the count of pending writes. */
    ghost predicate Valid()
      reads this
    {
      Shaped() && Table(bits, records, unflushed, files) && |Lost()| <= pending
    }

    /** Nothing the disk marks as used would be thrown away as corrupt. */
    ghost predicate Sound()
      requires Shaped()
      reads this
    {
      SoundRecords(buffer, records)
    }

    /** Memory and disk hold the same. */
    ghost predicate Clean()
      requires Shaped()
      reads this
    {
      pending == 0 && unflushed.None? && Differ(bits, buffer) == {}
    }

    /** The seek that comes first lets go of the waiting record. */
    method PersistBitmap()
      requires Valid()
      modifies this`buffer, this`records, this`unflushed, this`count, this`pending
      ensures Valid() && Clean() && Sound() && count == |files|
      ensures records == Flushed(old(records), old(unflushed))
    {
      hide Table, LostOf, Differ, SoundRecords, BitAt;
      var packed := Pack(bits, bytes);
      FlushTable(bits, packed, records, unflushed, files);
      records, unflushed := Flushed(records, unflushed), None;
      buffer := packed;
      count := |files|;
      pending := 0;
    }

    method PersistIfDue()
      requires Valid()
      modifies this`buffer, this`records, this`unflushed, this`count, this`pending
      ensures Valid() && (old(Sound()) ==> Sound())
      ensures if threshold == 0 || old(pending) >= threshold then Clean() else unchanged(this)
      ensures |Lost()| <= if threshold == 0 then 0 else threshold - 1
    {
      hide Table, LostOf, Differ, SoundRecords, BitAt;
      if threshold == 0 || pending >= threshold {
        PersistBitmap();
      }
    }

    method ForcePersist()
      requires Valid()
      modifies this`buffer, this`records, this`unflushed, this`count, this`pending
      ensures Valid() && Clean()
      ensures old(Sound()) ==> Sound()
      ensures if old(pending) == 0 && threshold != 0 then unchanged(this) else count == |files|
    {
      hide Table, SoundRecords, BitAt;
      if pending > 0 || threshold == 0 {
        PersistBitmap();
      } else {
        Empty(Lost());
      }
    }

    method FindNextFreeSlot() returns (slot: int)
      requires Valid()
      ensures slot == -1 ==> forall i :: 0 <= i < |bits| ==> i in files
      ensures slot != -1 ==> 0 <= slot < |bits| && slot !in files && forall i :: 0 <= i < slot ==> i in files
    {
      for i := 0 to |bits|
        invariant forall j :: 0 <= j < i ==> j in files
      {
        if !bits[i] {
          return i;
        }
      }
      return -1;
    }

    /** A new file in a free slot.  Its record goes to the C library, which lets the previous one go
        and may or may not keep this one back; its bit is written later. */
    method Insert(desc: Desc, keptBack: bool)
      requires Valid() && desc.slot < |bits| && desc.slot !in files
      modifies this`bits, this`files, this`pending, this`unflushed, this`records
      ensures Valid() && (old(Sound()) ==> Sound())
      ensures files == old(files)[desc.slot := desc] && pending == old(pending) + 1
      ensures records == Rewritten(old(records), old(unflushed), desc, keptBack) && unflushed == Waiting(desc, keptBack)
    {
      hide Table, LostOf, Differ, SoundRecords, BitAt, Flushed, Rewritten;
      FillKeeps(bits, buffer, records, unflushed, files, desc, keptBack, pending);
      records, unflushed := Rewritten(records, unflushed, desc, keptBack), Waiting(desc, keptBack);
      bits := bits[desc.slot := true];
      files := files[desc.slot := desc];
      pending := pending + 1;
    }

    /** Insert, and write everything out if it is due. */
    method Fill(desc: Desc, keptBack: bool)
      requires Valid() && desc.slot < |bits| && desc.slot !in files
      modifies this`bits, this`files, this`pending, this`unflushed, this`buffer, this`records, this`count
      ensures Valid() && (old(Sound()) ==> Sound())
      ensures Created(old(files), desc)
      ensures Lagging(old(pending), old(buffer), Rewritten(old(records), old(unflushed), desc, keptBack), Waiting(desc, keptBack))
    {
      hide Table, LostOf, Differ, SoundRecords, BitAt, Rewritten, Waiting;
      Insert(desc, keptBack);
      PersistIfDue();
    }

    /** The lowest free slot, named by its number. */
    method CreateAuto(size: nat, now: nat, keptBack: bool) returns (r: Option<Desc>)
      requires Valid()
      modifies this`bits, this`files, this`pending, this`unflushed, this`buffer, this`records, this`count
      ensures Valid() && (old(Sound()) ==> Sound())
      ensures r.None? ==> unchanged(this) && forall i :: 0 <= i < |bits| ==> i in files
      ensures r.Some? ==> && r.value.slot !in old(files) && (forall i :: 0 <= i < r.value.slot ==> i in old(files))
                          && r.value == Desc(r.value.slot, Decimal(r.value.slot), size, now)
                          && Created(old(files), r.value)
                          && Lagging(old(pending), old(buffer), Rewritten(old(records), old(unflushed), r.value, keptBack),
                                     Waiting(r.value, keptBack))
    {
      hide Table, LostOf, Differ, SoundRecords, BitAt, Rewritten, Waiting;
      var slot := FindNextFreeSlot();
      if slot == -1 {
        return None;
      }
      var name := Decimal(slot);
      ShortName(slot);
      if |name| >= NAME_LIMIT {
        return None;
      }
      var desc := Desc(slot, name, size, now);
      Fill(desc, keptBack);
      return Some(desc);
    }

    method CreateNamed(name: string, size: nat, now: nat, keptBack: bool) returns (r: Option<Desc>)
      requires Valid()
      modifies this`bits, this`files, this`pending, this`unflushed, this`buffer, this`records, this`count
      ensures Valid() && (old(Sound()) ==> Sound())
      ensures r.None? <==> |name| >= 16 || forall i :: 0 <= i < |old(bits)| ==> i in old(files)
      ensures r.None? ==> unchanged(this)
      ensures r.Some? ==> && r.value.slot !in old(files) && (forall i :: 0 <= i < r.value.slot ==> i in old(files))
                          && r.value == Desc(r.value.slot, name, size, now)
                          && Created(old(files), r.value)
                          && Lagging(old(pending), old(buffer), Rewritten(old(records), old(unflushed), r.value, keptBack),
                                     Waiting(r.value, keptBack))
    {
      if |name| >= NAME_LIMIT {
        return None;
      }
      hide Table, LostOf, Differ, SoundRecords, BitAt, Rewritten, Waiting;
      var slot := FindNextFreeSlot();
      if slot == -1 {
        return None;
      }
      var desc := Desc(slot, name, size, now);
      Fill(desc, keptBack);
      return Some(desc);
    }

    /** One file more, and a crash now changes at most threshold - 1 slots. */
    ghost predicate Created(was: map<nat, Desc>, desc: Desc)
      requires Shaped()
      reads this
    {
      files == was[desc.slot := desc] && |Lost()| <= if threshold == 0 then 0 else threshold - 1
    }

    /** Either everything has just been written, or the bitmap on disk is the old one and these are
        the records in the file and in the buffer. */
    ghost predicate Lagging(pendingWas: nat, bufferWas: seq<bv8>, recordsNow: seq<Desc>, waiting: Option<Desc>)
      requires Shaped()
      reads this
    {
      if threshold == 0 || pendingWas + 1 >= threshold then Clean()
      else pending == pendingWas + 1 && buffer == bufferWas && records == recordsNow && unflushed == waiting
    }

    method Remove(id: nat)
      requires Valid() && id in files
      modifies this`bits, this`files, this`pending
      ensures Valid() && (old(Sound()) ==> Sound())
      ensures files == old(files) - {id} && pending == old(pending) + 1
    {
      UsedSlot(bits, records, unflushed, files, id);
      hide Table, LostOf, Differ, SoundRecords, BitAt;
      var slot := files[id].slot;
      DropTable(bits, records, unflushed, files, slot);
      DropLost(bits, buffer, records, unflushed, slot);
      ghost var lost := Lost();
      bits := bits[slot := false];
      files := files - {id};
      pending := pending + 1;
      LostOne(lost, Lost(), slot, pending - 1);
    }

    method DeleteFile(id: nat) returns (found: bool)
      requires Valid()
      modifies this`bits, this`files, this`pending, this`unflushed, this`buffer, this`records, this`count
      ensures Valid() && (old(Sound()) ==> Sound())
      ensures found <==> id in old(files)
      ensures files == old(files) - {id}
      ensures found ==> |Lost()| <= if threshold == 0 then 0 else threshold - 1
      ensures found ==> Lagging(old(pending), old(buffer), old(records), old(unflushed))
    {
      hide Table, LostOf, Differ, SoundRecords, BitAt;
      if id !in files {
        assert files - {id} == files;
        return false;
      }
      Remove(id);
      PersistIfDue();
      return true;
    }

    /** Start over from the file alone.  An acceptable file gives the table its bitmap and records
        describe, and every correction is counted as a pending write; any other file, or none, is
        replaced by an empty one. */
    constructor Load(bytes: nat, threshold: nat, file: Option<LogFile>, unreadable: set<nat>)
      requires 8 * bytes <= UINT32_MAX
      requires Acceptable(file, bytes) ==> |file.value.buffer| == bytes && |file.value.records| == 8 * bytes
      ensures Valid() && this.bytes == bytes && this.threshold == threshold && unflushed.None?
      ensures Acceptable(file, bytes) <==>
                && file.Some? && file.value.magic == 0x4E56_4D45_4649_4C45 && file.value.recordSize == 64
                && file.value.headerSize == 512 && file.value.count <= 8 * bytes && file.value.size == 512 + 513 * bytes
      ensures Acceptable(file, bytes) ==>
                && buffer == file.value.buffer && records == file.value.records && count == file.value.count
                && files == Loaded(buffer, records) - unreadable
                && pending == |Differ(bits, buffer)| + (if |files| == count then 0 else 1)
                && (Sound() && unreadable == {} ==> Differ(bits, buffer) == {})
      ensures !Acceptable(file, bytes) ==> files == map[] && count == 0 && Clean() && Sound()
    {
      hide BitAt, Loaded, Differ, SoundRecords, Table, LostOf;
      this.bytes, this.threshold := bytes, threshold;
      var buf, recs, cnt := ZeroBytes(bytes), seq(8 * bytes, _ => BLANK), 0;
      if Acceptable(file, bytes) {
        buf, recs, cnt := file.value.buffer, file.value.records, file.value.count;
      } else {
        NothingMarked(bytes, recs);
      }
      var table, used, fixes := LoadRecords(buf, recs, unreadable);
      LoadedTable(buf, recs, unreadable, table, used);
      files, bits, buffer, records, count, unflushed := table, used, buf, recs, cnt, None;
      pending := fixes + if |table| == cnt then 0 else 1;
    }

    /** The id a name stands for, or UINT32_MAX.  A name that parses as the number of a used slot is
        taken at its word, without looking at that slot's name. */
    method GetFileIdByFilename(name: string) returns (id: nat)
      requires Valid()
      ensures if ParseId(name) in files then id == ParseId(name) else IsScan(files, name, id)
      ensures name == [] || !(IsDigit(name[0]) || IsSpace(name[0]) || name[0] == '+' || name[0] == '-') ==>
                IsScan(files, name, id)
    {
      if name == [] || !(IsDigit(name[0]) || IsSpace(name[0]) || name[0] == '+' || name[0] == '-') { NotANumber(name); }
      var parsed := ParseId(name);
      if parsed != UINT32_MAX && parsed in files {
        return parsed;
      }
      assert UINT32_MAX !in files;
      var todo := files.Keys;
      while todo != {}
        invariant todo <= files.Keys
        invariant forall i :: i in files && files[i].name == name ==> i in todo
        decreases |todo|
      {
        var i :| i in todo;
        if files[i].name == name {
          return i;
        }
        todo := todo - {i};
      }
      return UINT32_MAX;
    }
  }

  /** The table's file: its length, the header fields that are looked at, bitmap and records. */
  datatype LogFile = LogFile(size: nat, magic: nat, recordSize: nat, headerSize: nat, count: nat,
                             buffer: seq<bv8>, records: seq<Desc>)

  const MAGIC: nat := 0x4E56_4D45_4649_4C45
  const HEADER_SIZE: nat := 512
  const RECORD_SIZE: nat := 64
  const BLANK: Desc := Desc(0, "", 0, 0)

  predicate Acceptable(file: Option<LogFile>, bytes: nat) {
    && file.Some? && file.value.magic == MAGIC
    && file.value.recordSize == RECORD_SIZE && file.value.headerSize == HEADER_SIZE
    && file.value.count <= 8 * bytes && file.value.size == HEADER_SIZE + bytes + 8 * bytes * RECORD_SIZE
  }

  function ZeroBytes(n: nat): (b: seq<bv8>)
    ensures |b| == n && forall i :: 0 <= i < n ==> b[i] == 0
  {
    seq(n, _ => 0)
  }

  lemma NothingMarked(bytes: nat, records: seq<Desc>)
    requires |records| == 8 * bytes
    ensures Loaded(ZeroBytes(bytes), records) == map[] && SoundRecords(ZeroBytes(bytes), records)
    ensures forall i :: 0 <= i < 8 * bytes ==> !BitAt(ZeroBytes(bytes), i)
  {
    forall i | 0 <= i < 8 * bytes ensures !BitAt(ZeroBytes(bytes), i) { ZeroBits(i % 8); }
  }

  lemma LoadedTable(buffer: seq<bv8>, records: seq<Desc>, unreadable: set<nat>, files: map<nat, Desc>, bits: seq<bool>)
    requires |bits| == |records| == 8 * |buffer| && files == Loaded(buffer, records) - unreadable
    requires forall i :: 0 <= i < |bits| ==> (bits[i] <==> i in files)
    ensures Table(bits, records, None, files)
    ensures LostOf(bits, buffer, records, None) == Differ(bits, buffer)
  {
    hide BitAt;
  }

  lemma FreeSlot(bits: seq<bool>, records: seq<Desc>, unflushed: Option<Desc>, files: map<nat, Desc>, slot: nat)
    requires |bits| == |records|
    requires Table(bits, records, unflushed, files) && slot < |bits| && slot !in files
    ensures !bits[slot]
  {
  }

  lemma UsedSlot(bits: seq<bool>, records: seq<Desc>, unflushed: Option<Desc>, files: map<nat, Desc>, id: nat)
    requires |bits| == |records|
    requires Table(bits, records, unflushed, files) && id in files
    ensures files[id].slot == id < |bits|
  {
  }

  method LoadRecords(buffer: seq<bv8>, records: seq<Desc>, unreadable: set<nat>)
    returns (files: map<nat, Desc>, bits: seq<bool>, fixes: nat)
    requires |records| == 8 * |buffer|
    ensures |bits| == |records| && forall i :: 0 <= i < |bits| ==> (bits[i] <==> i in files)
    ensures files == Loaded(buffer, records) - unreadable
    ensures |Differ(bits, buffer)| == fixes
    ensures SoundRecords(buffer, records) && (unreadable == {} || Loaded(buffer, records) == map[]) ==> fixes == 0
  {
    hide BitAt, Differ, SoundRecords, Loaded;
    files, bits, fixes := map[], [], 0;
    ghost var fixed: set<nat> := {};
    for i := 0 to |records|
      invariant |bits| == i && fixes == |fixed|
      invariant forall j :: j in fixed ==> j < i && BitAt(buffer, j) && (records[j].slot != j || j in unreadable)
      invariant forall j :: 0 <= j < i ==> (bits[j] <==> BitAt(buffer, j) && records[j].slot == j && j !in unreadable)
      invariant forall j :: 0 <= j < i && bits[j] != BitAt(buffer, j) ==> j in fixed
      invariant forall j :: j in files <==> 0 <= j < i && bits[j]
      invariant forall j :: j in files ==> files[j] == records[j]
    {
      var used := BitAt(buffer, i);
      if used && i !in unreadable && records[i].slot == i {
        files := files[i := records[i]];
      } else if used {
        fixed := fixed + {i};
        fixes := fixes + 1;
        used := false;
      }
      bits := bits + [used];
    }
    LoadDone(buffer, records, unreadable, files, bits, fixed);
  }

  lemma LoadDone(buffer: seq<bv8>, records: seq<Desc>, unreadable: set<nat>, files: map<nat, Desc>, bits: seq<bool>, fixed: set<nat>)
    requires |records| == 8 * |buffer| == |bits|
    requires forall j :: j in fixed ==> j < |records| && BitAt(buffer, j) && (records[j].slot != j || j in unreadable)
    requires forall j :: 0 <= j < |bits| ==> (bits[j] <==> BitAt(buffer, j) && records[j].slot == j && j !in unreadable)
    requires forall j :: 0 <= j < |bits| && bits[j] != BitAt(buffer, j) ==> j in fixed
    requires forall j :: j in files <==> 0 <= j < |bits| && bits[j]
    requires forall j :: j in files ==> files[j] == records[j]
    ensures files == Loaded(buffer, records) - unreadable && Differ(bits, buffer) == fixed
    ensures SoundRecords(buffer, records) && (unreadable == {} || Loaded(buffer, records) == map[]) ==> fixed == {}
  {
    hide BitAt;
    assert forall j :: j in fixed && records[j].slot == j ==> j in Loaded(buffer, records);
  }

  lemma Empty(s: set<nat>)
    requires |s| == 0
    ensures s == {}
  {
  }

  lemma ShortName(slot: nat)
    requires slot < U32
    ensures |Decimal(slot)| < NAME_LIMIT
  {
    DecimalLength(slot, 10, 10_000_000_000);
  }

  lemma {:induction false} DecimalLength(n: nat, k: nat, bound: nat)
    requires k > 0 && n < bound && bound == Power10(k)
    ensures |Decimal(n)| <= k
  {
    if n >= 10 {
      DecimalLength(n / 10, k - 1, Power10(k - 1));
    }
  }

  /** The answer of a full scan of the table for this name; any match will do. */
  ghost predicate IsScan(files: map<nat, Desc>, name: string, id: nat) {
    if id == UINT32_MAX then forall i :: i in files ==> files[i].name != name
    else id in files && files[id].name == name
  }

  // ----- Reload

  /** Once everything is written, a reload rebuilds the same table. */
  lemma ReloadRebuilds(m: FileManager)
    requires m.Valid() && m.Clean()
    ensures Loaded(m.buffer, m.records) == m.files
  {
    forall i | 0 <= i < |m.bits| ensures BitAt(m.buffer, i) == m.bits[i] {
      assert i !in Differ(m.bits, m.buffer);
    }
    assert Loaded(m.buffer, m.records).Keys == m.files.Keys;
  }

  /** The table has the same file, or no file, in this slot as before. */
  ghost predicate SameSlot(after: map<nat, Desc>, before: map<nat, Desc>, i: nat) {
    (i in after <==> i in before) && (i in after ==> after[i] == before[i])
  }

  /** A crash at any moment brings exactly these slots back changed: those whose bit was not
      written, where a creation is lost or a deletion undone, and the one reused slot whose new
      record was still buffered, where the file deleted before comes back in place of the new one. */
  lemma ReloadAfterCrash(m: FileManager, i: nat)
    requires m.Valid() && m.Sound() && i < |m.bits|
    ensures SameSlot(Loaded(m.buffer, m.records), m.files, i) <==> i !in m.Lost()
    ensures i in Differ(m.bits, m.buffer) ==> (i in Loaded(m.buffer, m.records) <==> i !in m.files)
  {
    hide BitAt;
    var after := Loaded(m.buffer, m.records);
    if m.bits[i] && BitAt(m.buffer, i) {
      assert i in after && after[i] == m.records[i];
    }
  }

  /** Outside the slots whose bit lags behind, everything comes back unchanged if and only if the
      last record written has reached the file, or its slot is not marked as used both in memory
      and on disk, or the file holds that very record already. */
  lemma BitsDecideIff(m: FileManager)
    requires m.Valid() && m.Sound()
    ensures (forall i :: 0 <= i < |m.bits| && i !in Differ(m.bits, m.buffer) ==>
               SameSlot(Loaded(m.buffer, m.records), m.files, i)) <==>
            (m.unflushed.Some? ==>
               var u := m.unflushed.value;
               !m.bits[u.slot] || !BitAt(m.buffer, u.slot) || m.records[u.slot] == u)
  {
    hide BitAt, Loaded, SameSlot;
    forall i | 0 <= i < |m.bits|
      ensures SameSlot(Loaded(m.buffer, m.records), m.files, i) <==> i !in m.Lost()
    {
      ReloadAfterCrash(m, i);
    }
    if m.unflushed.Some? {
      var s := m.unflushed.value.slot;
      assert SameSlot(Loaded(m.buffer, m.records), m.files, s) <==> s !in m.Lost();
    }
  }

  lemma ZeroName()
    ensures Decimal(0) == "0"
  {
    assert DigitOf(0) as int == '0' as int;
  }

  /** Delete a file whose slot is marked on disk, create another in the same slot, crash: no bit
      differs, yet the deleted file is back and the new one is gone. */
  method DeletedFileReturns() returns (m: FileManager)
    ensures fresh(m) && m.Valid() && m.Sound() && Differ(m.bits, m.buffer) == {}
    ensures m.files == map[0 := Desc(0, "0", 2, 2)]
    ensures Loaded(m.buffer, m.records) == map[0 := Desc(0, "0", 1, 1)]
  {
    hide LostOf, Differ, SoundRecords, BitAt, Loaded, Decimal;
    ZeroName();
    m := new FileManager.Load(1, 100, None, {});
    assert 0 !in m.files;
    var a := m.CreateAuto(1, 1, true);
    assert a.Some? && a.value.slot == 0;
    m.ForcePersist();
    ReloadRebuilds(m);
    ghost var was := m.bits;
    assert m.files == map[0 := Desc(0, "0", 1, 1)];
    var found := m.DeleteFile(0);
    assert m.files == map[] && 0 !in m.files;
    var b := m.CreateAuto(2, 2, true);
    assert b.Some? && b.value.slot == 0;
    assert m.bits == was;
  }

  // ----- Names

  /** The quick answer is a full scan's answer if and only if the slot the name parses to is free or
      really carries that name. */
  lemma QuickLookup(files: map<nat, Desc>, name: string, id: nat)
    requires UINT32_MAX !in files
    requires if ParseId(name) in files then id == ParseId(name) else IsScan(files, name, id)
    ensures IsScan(files, name, id) <==> ParseId(name) !in files || files[ParseId(name)].name == name
  {
  }

  ghost predicate AutoNamed(files: map<nat, Desc>) {
    forall i :: i in files ==> i < UINT32_MAX && files[i].name == Decimal(i)
  }

  /** With slot-numbered files only, lookup is exact for every canonical name, and wrong exactly for
      the other spellings of a used slot's number. */
  lemma AutoNamesExact(files: map<nat, Desc>, name: string, id: nat)
    requires AutoNamed(files)
    requires if ParseId(name) in files then id == ParseId(name) else IsScan(files, name, id)
    ensures IsScan(files, name, id) <==> ParseId(name) !in files || name == Decimal(ParseId(name))
    ensures forall n: nat :: n < UINT32_MAX && name == Decimal(n) ==>
              IsScan(files, name, id) && id == if n in files then n else UINT32_MAX
  {
    QuickLookup(files, name, id);
    forall n: nat | n < UINT32_MAX && name == Decimal(n)
      ensures IsScan(files, name, id) && id == if n in files then n else UINT32_MAX
    {
      NameRoundTrip(n);
      if id != UINT32_MAX { NameRoundTrip(id); }
    }
  }

  /** Any used slot's number with a zero in front finds that slot, though no file has that name. */
  lemma LeadingZero(files: map<nat, Desc>, n: nat)
    requires AutoNamed(files) && n in files
    ensures ParseId("0" + Decimal(n)) == n && !IsScan(files, "0" + Decimal(n), n)
  {
    hide Value, LeadingDigits, Decimal;
    var s := "0" + Decimal(n);
    assert s[0] == '0';
    AllDigits(s);
    ZeroInFront(Decimal(n));
    ValueOfDecimal(n);
    assert |s| == |Decimal(n)| + 1;
  }
}
