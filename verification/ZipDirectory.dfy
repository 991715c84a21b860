/**
 Reading the directory of an asset pack (electron/services/zip-archive.ts:59-178).

 A file is a sequence of bytes and entry names are their bytes. The reader is checked against a
 writer that follows sections 4.3.12 and 4.3.16 of the PKWARE APPNOTE.
 */
module ZipDirectory {
  import opened Basics

  datatype Entry = Entry(name: seq<byte>, directory: bool, compression: nat, compressedSize: nat,
                         uncompressedSize: nat, localHeaderOffset: nat)

  datatype Limits = Limits(maxEntries: nat, maxEntryBytes: nat, maxTotalBytes: nat)

  datatype Fault =
    | ArchiveTruncated | NoEnd | MultiVolume | Zip64 | TooManyEntries | DirectoryTooLarge | DirectoryOutside
    | DirectoryTruncated | UnexpectedSignature | Encrypted | UnsupportedFlags | UnsupportedMethod
    | NameLength | NameCharacter | NameControl | NameAbsolute | NameEmpty | NameTraversal
    | EntryTooLarge | TotalTooLarge | SizesDiffer | DirectoryWithContent | EntryOutside

  datatype Result<T> = Ok(value: T) | Err(fault: Fault)

  const EOCD_SIGNATURE: nat := 0x06054b50
  const CENTRAL_HEADER_SIGNATURE: nat := 0x02014b50
  const EOCD_MIN_SIZE: nat := 22
  const CENTRAL_MIN_SIZE: nat := 46
  const LOCAL_MIN_SIZE: nat := 30
  const MAX_EOCD_SEARCH: nat := 64 * 1024 + EOCD_MIN_SIZE
  const MAX_CENTRAL_DIRECTORY_BYTES: nat := 16 * 1024 * 1024
  const MAX_ENTRY_NAME_LENGTH: nat := 512
  const METHOD_STORE: nat := 0
  const METHOD_DEFLATE: nat := 8
  const MAX16: nat := 0xffff
  const MAX32: nat := 0xffffffff

  const SLASH: byte := 0x2f
  const BACKSLASH: byte := 0x5c
  const COLON: byte := 0x3a
  const DOT: byte := 0x2e

  // ---------- Numbers ----------

  function U16(s: seq<byte>, i: nat): (n: nat)
    requires i + 2 <= |s|
    ensures n <= MAX16
  {
    s[i] as int + 0x100 * s[i + 1] as int
  }

  function U32(s: seq<byte>, i: nat): (n: nat)
    requires i + 4 <= |s|
    ensures n <= MAX32
  {
    s[i] as int + 0x100 * s[i + 1] as int + 0x1_0000 * s[i + 2] as int + 0x100_0000 * s[i + 3] as int
  }

  /** Byte `k` of a number, the lowest first. */
  function Byte(n: nat, k: nat): byte {
    if k == 0 then n % 0x100 else if k == 1 then n / 0x100 % 0x100
    else if k == 2 then n / 0x1_0000 % 0x100 else n / 0x100_0000 % 0x100
  }

  lemma Bytes16(n: nat, s: seq<byte>, i: nat)
    requires n <= MAX16 && i + 2 <= |s| && s[i] == Byte(n, 0) && s[i + 1] == Byte(n, 1)
    ensures U16(s, i) == n
  {
  }

  lemma Bytes32(n: nat, s: seq<byte>, i: nat)
    requires n <= MAX32 && i + 4 <= |s|
    requires s[i] == Byte(n, 0) && s[i + 1] == Byte(n, 1) && s[i + 2] == Byte(n, 2) && s[i + 3] == Byte(n, 3)
    ensures U32(s, i) == n
  {
    var q := n / 0x100;
    var r := q / 0x100;
    assert n / 0x1_0000 == r && n / 0x100_0000 == r / 0x100;
  }

  predicate IsEncrypted(flags: nat) {
    flags % 2 == 1 || flags / 0x40 % 2 == 1
  }

  /** Only the bits 1, 2, 3 and 11 are allowed. */
  predicate HasOnlyAllowed(flags: nat) {
    flags == 2 * (flags / 2 % 8) + 0x800 * (flags / 0x800 % 2)
  }

  predicate IsClear(flags: nat, bit: nat)
    requires bit > 0
  {
    flags / bit % 2 == 0
  }

  /** The flags of an entry are accepted exactly when every bit is clear, but for those of the values 2, 4
      and 8, which do not matter, and 0x800, which stands for names in UTF-8. */
  lemma FlagsAcceptedExactly(flags: nat)
    requires flags <= MAX16
    ensures !IsEncrypted(flags) && HasOnlyAllowed(flags) <==>
            && IsClear(flags, 0x1) && IsClear(flags, 0x10) && IsClear(flags, 0x20) && IsClear(flags, 0x40)
            && IsClear(flags, 0x80) && IsClear(flags, 0x100) && IsClear(flags, 0x200) && IsClear(flags, 0x400)
            && IsClear(flags, 0x1000) && IsClear(flags, 0x2000) && IsClear(flags, 0x4000) && IsClear(flags, 0x8000)
    ensures IsEncrypted(flags) <==> !IsClear(flags, 0x1) || !IsClear(flags, 0x40)
  {
    hide HasOnlyAllowed;
    AllowedExactly(flags, flags / 0x10 % 0x80, flags / 0x1000);
    MiddleBits(flags / 0x10);
    HighBits(flags / 0x1000);
    Quotients(flags);
  }

  lemma Quotients(flags: nat)
    ensures flags / 0x20 == flags / 0x10 / 2 && flags / 0x40 == flags / 0x10 / 4 && flags / 0x80 == flags / 0x10 / 8
    ensures flags / 0x100 == flags / 0x10 / 0x10 && flags / 0x200 == flags / 0x10 / 0x20
    ensures flags / 0x400 == flags / 0x10 / 0x40 && flags / 0x2000 == flags / 0x1000 / 2
    ensures flags / 0x4000 == flags / 0x1000 / 4 && flags / 0x8000 == flags / 0x1000 / 8
  {
  }

  lemma AllowedExactly(flags: nat, middle: nat, high: nat)
    requires middle == flags / 0x10 % 0x80 && high == flags / 0x1000
    ensures HasOnlyAllowed(flags) <==> flags % 2 == 0 && middle == 0 && high == 0
  {
    var n := flags / 0x10;
    assert flags == flags % 2 + 2 * (flags / 2 % 8) + 0x10 * n;
    assert n == middle + 0x80 * (n / 0x80) && n / 0x80 == flags / 0x800;
    assert flags / 0x800 == flags / 0x800 % 2 + 2 * high;
  }

  lemma MiddleBits(n: nat)
    ensures n % 0x80 == 0 <==> IsClear(n, 1) && IsClear(n, 2) && IsClear(n, 4) && IsClear(n, 8) && IsClear(n, 0x10)
                               && IsClear(n, 0x20) && IsClear(n, 0x40)
  {
    LowBits(n);
    HighBits(n / 8);
    assert n % 0x80 == n % 8 + 8 * (n / 8 % 0x10);
    hide IsClear;
    SameBits(n);
  }

  lemma SameBits(n: nat)
    ensures IsClear(n / 8, 1) == IsClear(n, 8) && IsClear(n / 8, 2) == IsClear(n, 0x10)
    ensures IsClear(n / 8, 4) == IsClear(n, 0x20) && IsClear(n / 8, 8) == IsClear(n, 0x40)
  {
    assert n / 8 / 2 == n / 0x10 && n / 8 / 4 == n / 0x20 && n / 8 / 8 == n / 0x40;
  }

  lemma LowBits(n: nat)
    ensures n % 8 == 0 <==> IsClear(n, 1) && IsClear(n, 2) && IsClear(n, 4)
  {
    Quarter(n);
    Halve8(n);
    Halve4(n / 2);
  }

  lemma HighBits(n: nat)
    ensures n % 0x10 == 0 <==> IsClear(n, 1) && IsClear(n, 2) && IsClear(n, 4) && IsClear(n, 8)
  {
    Quarter(n);
    Halve16(n);
    Halve8(n / 2);
    Halve4(n / 4);
  }

  lemma Quarter(n: nat)
    ensures n / 2 / 2 == n / 4 && n / 4 / 2 == n / 8
  {
  }

  lemma Halve16(n: nat)
    ensures n % 0x10 == 0 <==> n % 2 == 0 && n / 2 % 8 == 0
  {
    assert n == 2 * (n / 2) + n % 2;
  }

  lemma Halve8(n: nat)
    ensures n % 8 == 0 <==> n % 2 == 0 && n / 2 % 4 == 0
  {
    assert n == 2 * (n / 2) + n % 2;
  }

  lemma Halve4(n: nat)
    ensures n % 4 == 0 <==> n % 2 == 0 && n / 2 % 2 == 0
  {
    assert n == 2 * (n / 2) + n % 2;
  }

  // ---------- Names ----------

  /** The parts of a name between slashes. */
  function Split(name: seq<byte>): (parts: seq<seq<byte>>)
    ensures parts != []
  {
    if name == [] then [[]]
    else
      var rest := Split(name[1..]);
      if name[0] == SLASH then [[]] + rest else [[name[0]] + rest[0]] + rest[1..]
  }

  function ValidateEntryName(name: seq<byte>): Result<seq<byte>> {
    if |name| == 0 || |name| > MAX_ENTRY_NAME_LENGTH then Err(NameLength)
    else if BACKSLASH in name || 0 in name || COLON in name then Err(NameCharacter)
    else if exists b :: b in name && b < 0x20 then Err(NameControl)
    else if name[0] == SLASH then Err(NameAbsolute)
    else if forall part :: part in Split(name) ==> part == [] then Err(NameEmpty)
    else if [DOT] in Split(name) || [DOT, DOT] in Split(name) then Err(NameTraversal)
    else Ok(name)
  }

  predicate IsDirectory(name: seq<byte>) { name != [] && name[|name| - 1] == SLASH }

  // ---------- The reader ----------

  predicate IsEnd(file: seq<byte>, p: nat) {
    p + EOCD_MIN_SIZE <= |file| && U32(file, p) == EOCD_SIGNATURE
  }

  /** The last end record that starts before `p` and not before `low`. */
  function LastEnd(file: seq<byte>, low: nat, p: nat): Result<nat>
    decreases p
  {
    if p <= low then Err(NoEnd)
    else if IsEnd(file, p - 1) then Ok(p - 1)
    else LastEnd(file, low, p - 1)
  }

  /** The bytes of the header at `cursor`, with its name, extra field and comment. */
  function HeaderSize(dir: seq<byte>, cursor: nat): nat
    requires cursor + CENTRAL_MIN_SIZE <= |dir|
  {
    CENTRAL_MIN_SIZE + U16(dir, cursor + 28) + U16(dir, cursor + 30) + U16(dir, cursor + 32)
  }

  /** The entry of the header at `cursor`, before its content is checked. */
  function EntryAt(dir: seq<byte>, cursor: nat): Entry
    requires cursor + CENTRAL_MIN_SIZE <= |dir| && cursor + HeaderSize(dir, cursor) <= |dir|
  {
    var name := dir[cursor + 46..cursor + 46 + U16(dir, cursor + 28)];
    Entry(name, IsDirectory(name), U16(dir, cursor + 10), U32(dir, cursor + 20), U32(dir, cursor + 24),
          U32(dir, cursor + 42))
  }

  /** What is wrong with an entry, in the order of the checks. `total` counts the bytes before it. */
  function Checked(e: Entry, flags: nat, total: nat, limits: Limits, fileSize: nat): Result<nat> {
    if IsEncrypted(flags) then Err(Encrypted)
    else if !HasOnlyAllowed(flags) then Err(UnsupportedFlags)
    else if e.compression != METHOD_STORE && e.compression != METHOD_DEFLATE then Err(UnsupportedMethod)
    else if e.compressedSize == MAX32 || e.uncompressedSize == MAX32 || e.localHeaderOffset == MAX32 then Err(Zip64)
    else if ValidateEntryName(e.name).Err? then Err(ValidateEntryName(e.name).fault)
    else if e.directory then
      if e.uncompressedSize != 0 || e.compressedSize != 0 then Err(DirectoryWithContent)
      else if e.localHeaderOffset + LOCAL_MIN_SIZE > fileSize then Err(EntryOutside)
      else Ok(total)
    else if e.uncompressedSize > limits.maxEntryBytes then Err(EntryTooLarge)
    else if total + e.uncompressedSize > limits.maxTotalBytes then Err(TotalTooLarge)
    else if e.compression == METHOD_STORE && e.compressedSize != e.uncompressedSize then Err(SizesDiffer)
    else if e.localHeaderOffset + LOCAL_MIN_SIZE > fileSize then Err(EntryOutside)
    else Ok(total + e.uncompressedSize)
  }

  /** The header at `cursor`: its entry and the bytes counted so far. */
  function ReadHeader(dir: seq<byte>, cursor: nat, total: nat, limits: Limits, fileSize: nat): Result<(Entry, nat)> {
    if cursor + CENTRAL_MIN_SIZE > |dir| then Err(DirectoryTruncated)
    else if U32(dir, cursor) != CENTRAL_HEADER_SIGNATURE then Err(UnexpectedSignature)
    else if cursor + HeaderSize(dir, cursor) > |dir| then Err(DirectoryTruncated)
    else
      var e := EntryAt(dir, cursor);
      match Checked(e, U16(dir, cursor + 8), total, limits, fileSize)
      case Err(fault) => Err(fault)
      case Ok(sum) => Ok((e, sum))
  }

  /** The next `count` entries. */
  function ReadEntries(dir: seq<byte>, cursor: nat, count: nat, total: nat, limits: Limits, fileSize: nat)
    : Result<seq<Entry>>
    decreases count
  {
    if count == 0 then
      Ok([])
    else
      match ReadHeader(dir, cursor, total, limits, fileSize)
      case Err(fault) => Err(fault)
      case Ok(read) =>
        match ReadEntries(dir, cursor + HeaderSize(dir, cursor), count - 1, read.1, limits, fileSize)
        case Err(fault) => Err(fault)
        case Ok(rest) => Ok([read.0] + rest)
  }

  function ReadDirectory(file: seq<byte>, limits: Limits): Result<seq<Entry>> {
    if |file| < EOCD_MIN_SIZE then Err(ArchiveTruncated)
    else
      var low := |file| - Min(|file|, MAX_EOCD_SEARCH);
      match LastEnd(file, low, |file| - EOCD_MIN_SIZE + 1)
      case Err(fault) => Err(fault)
      case Ok(end) => ReadAt(file, end, limits)
  }

  function ReadAt(file: seq<byte>, end: nat, limits: Limits): Result<seq<Entry>> {
    if end + EOCD_MIN_SIZE > |file| then Err(NoEnd)
    else
      var count, size, offset := U16(file, end + 10), U32(file, end + 12), U32(file, end + 16);
      if U16(file, end + 4) != 0 then Err(MultiVolume)
      else if count == MAX16 || size == MAX32 || offset == MAX32 then Err(Zip64)
      else if count > limits.maxEntries then Err(TooManyEntries)
      else if size > MAX_CENTRAL_DIRECTORY_BYTES then Err(DirectoryTooLarge)
      else if offset + size > |file| then Err(DirectoryOutside)
      else ReadEntries(file[offset..offset + size], 0, count, 0, limits, |file|)
  }

  // ---------- Names that are accepted ----------

  /** `part` stands in `name` at `i`, between slashes or the ends of the name. */
  predicate IsPart(name: seq<byte>, i: nat, part: seq<byte>) {
    && i + |part| <= |name| && name[i..i + |part|] == part && SLASH !in part
    && (i == 0 || name[i - 1] == SLASH)
    && (i + |part| == |name| || name[i + |part|] == SLASH)
  }

  /** A relative name that cannot leave the directory it is put in. */
  ghost predicate IsSafeName(name: seq<byte>) {
    && 0 < |name| <= MAX_ENTRY_NAME_LENGTH
    && (forall b :: b in name ==> b >= 0x20 && b != BACKSLASH && b != COLON)
    && name[0] != SLASH
    && forall i: nat :: !IsPart(name, i, [DOT]) && !IsPart(name, i, [DOT, DOT])
  }

  ghost predicate FollowsSlash(name: seq<byte>, part: seq<byte>) {
    exists i: nat :: i > 0 && IsPart(name, i, part)
  }

  lemma PartShifts(name: seq<byte>, i: nat, part: seq<byte>)
    requires name != []
    ensures IsPart(name, i + 1, part) <==> IsPart(name[1..], i, part) && (i > 0 || name[0] == SLASH)
  {
    if i + 1 + |part| <= |name| {
      assert name[i + 1..i + 1 + |part|] == name[1..][i..i + |part|];
    }
  }

  lemma FollowingShifts(name: seq<byte>, part: seq<byte>)
    requires name != []
    ensures FollowsSlash(name, part) <==>
            FollowsSlash(name[1..], part) || (name[0] == SLASH && IsPart(name[1..], 0, part))
  {
    if FollowsSlash(name, part) {
      var i: nat :| i > 0 && IsPart(name, i, part);
      PartShifts(name, i - 1, part);
    }
    if FollowsSlash(name[1..], part) {
      var i: nat :| i > 0 && IsPart(name[1..], i, part);
      PartShifts(name, i, part);
    }
    PartShifts(name, 0, part);
  }

  lemma FirstPart(name: seq<byte>, part: seq<byte>)
    requires name != []
    ensures name[0] == SLASH ==> (IsPart(name, 0, part) <==> part == [])
    ensures name[0] != SLASH ==>
              (IsPart(name, 0, part) <==> part != [] && part[0] == name[0] && IsPart(name[1..], 0, part[1..]))
  {
    if 0 < |part| <= |name| {
      assert name[..|part|][0] == name[0];
      assert name[..|part|][1..] == name[1..][..|part| - 1];
      if part[0] == name[0] && name[1..][..|part| - 1] == part[1..] {
        assert name[..|part|] == [part[0]] + part[1..] == part;
      }
    }
  }

  /** The first part is the one at the front; the others follow a slash. */
  lemma {:induction false} SplitHasParts(name: seq<byte>, part: seq<byte>)
    ensures part == Split(name)[0] <==> IsPart(name, 0, part)
    ensures part in Split(name)[1..] <==> FollowsSlash(name, part)
    decreases |name|
  {
    if name != [] {
      FirstPart(name, part);
      FollowingShifts(name, part);
      SplitHasParts(name[1..], part);
      hide IsPart, FollowsSlash;
      var rest := Split(name[1..]);
      assert rest == [rest[0]] + rest[1..];
      if name[0] == SLASH {
        assert Split(name)[1..] == rest;
      } else {
        assert Split(name)[1..] == rest[1..];
        if part != [] {
          SplitHasParts(name[1..], part[1..]);
        }
      }
    }
  }

  lemma SplitHas(name: seq<byte>, part: seq<byte>)
    ensures part in Split(name) <==> exists i: nat :: IsPart(name, i, part)
  {
    SplitHasParts(name, part);
    assert Split(name) == [Split(name)[0]] + Split(name)[1..];
  }

  /** The name check accepts exactly the safe names. */
  lemma SafeNamesAreAccepted(name: seq<byte>)
    ensures ValidateEntryName(name).Ok? <==> IsSafeName(name)
  {
    SplitHas(name, [DOT]);
    SplitHas(name, [DOT, DOT]);
    if |name| > 0 && name[0] != SLASH {
      assert Split(name)[0] != [] && Split(name)[0] in Split(name);
    }
  }

  // ---------- Entries that are accepted ----------

  /** An entry that is safe to extract. */
  ghost predicate IsSafe(e: Entry, limits: Limits, fileSize: nat) {
    && IsSafeName(e.name)
    && e.directory == IsDirectory(e.name)
    && e.compression in {METHOD_STORE, METHOD_DEFLATE}
    && e.compressedSize < MAX32 && e.uncompressedSize < MAX32
    && (if e.directory then e.compressedSize == e.uncompressedSize == 0
        else e.uncompressedSize <= limits.maxEntryBytes)
    && (e.compression == METHOD_STORE ==> e.compressedSize == e.uncompressedSize)
    && e.localHeaderOffset < MAX32 && e.localHeaderOffset + LOCAL_MIN_SIZE <= fileSize
  }

  predicate FlagsAccepted(flags: nat) { !IsEncrypted(flags) && HasOnlyAllowed(flags) }

  /** What an entry adds to the total. */
  function Counted(e: Entry): nat { if e.directory then 0 else e.uncompressedSize }

  function Total(entries: seq<Entry>): nat {
    if entries == [] then 0 else Counted(entries[0]) + Total(entries[1..])
  }

  lemma CheckAccepts(e: Entry, flags: nat, total: nat, limits: Limits, fileSize: nat)
    requires e.directory == IsDirectory(e.name)
    requires e.compressedSize <= MAX32 && e.uncompressedSize <= MAX32 && e.localHeaderOffset <= MAX32
    requires total <= limits.maxTotalBytes
    ensures Checked(e, flags, total, limits, fileSize).Ok? <==>
            FlagsAccepted(flags) && IsSafe(e, limits, fileSize) && total + Counted(e) <= limits.maxTotalBytes
    ensures Checked(e, flags, total, limits, fileSize).Ok? ==>
              Checked(e, flags, total, limits, fileSize).value == total + Counted(e)
  {
    SafeNamesAreAccepted(e.name);
    hide ValidateEntryName, IsSafeName, IsEncrypted, HasOnlyAllowed;
  }

  lemma {:induction false} ReadEntriesAreSafe(dir: seq<byte>, cursor: nat, count: nat, total: nat, limits: Limits,
                                              fileSize: nat)
    requires total <= limits.maxTotalBytes
    ensures var r := ReadEntries(dir, cursor, count, total, limits, fileSize);
            r.Ok? ==>
              && |r.value| == count && total + Total(r.value) <= limits.maxTotalBytes
              && forall e :: e in r.value ==> IsSafe(e, limits, fileSize)
    decreases count
  {
    hide IsSafe, Checked;
    if count > 0 && ReadHeader(dir, cursor, total, limits, fileSize).Ok? {
      var e, flags := EntryAt(dir, cursor), U16(dir, cursor + 8);
      CheckAccepts(e, flags, total, limits, fileSize);
      ReadEntriesAreSafe(dir, cursor + HeaderSize(dir, cursor), count - 1, total + Counted(e), limits, fileSize);
    }
  }

  /** Whatever the file holds, an archive that is accepted has only entries that are safe to extract,
      within the limits. */
  lemma AcceptedArchivesAreSafe(file: seq<byte>, limits: Limits)
    ensures var r := ReadDirectory(file, limits);
            r.Ok? ==>
              && |r.value| <= limits.maxEntries && Total(r.value) <= limits.maxTotalBytes
              && forall e :: e in r.value ==> IsSafe(e, limits, |file|)
  {
    hide ReadEntries, IsSafe;
    if |file| >= EOCD_MIN_SIZE {
      var low := |file| - Min(|file|, MAX_EOCD_SEARCH);
      var end := LastEnd(file, low, |file| - EOCD_MIN_SIZE + 1);
      if end.Ok? && ReadAt(file, end.value, limits).Ok? {
        var p := end.value;
        var count, size, offset := U16(file, p + 10), U32(file, p + 12), U32(file, p + 16);
        ReadEntriesAreSafe(file[offset..offset + size], 0, count, 0, limits, |file|);
      }
    }
  }

  // ---------- The writer ----------

  /** An entry and everything else that its header holds. */
  datatype Item = Item(entry: Entry, madeBy: nat, needed: nat, flags: nat, time: nat, date: nat, crc: nat,
                       disk: nat, internalAttributes: nat, externalAttributes: nat,
                       extra: seq<byte>, comment: seq<byte>)

  /** The fields have room in the header. */
  predicate Fits(item: Item) {
    && |item.entry.name| <= MAX16 && |item.extra| <= MAX16 && |item.comment| <= MAX16
    && item.flags <= MAX16 && item.entry.compression <= MAX16
    && item.entry.compressedSize <= MAX32 && item.entry.uncompressedSize <= MAX32
    && item.entry.localHeaderOffset <= MAX32
    && item.entry.directory == IsDirectory(item.entry.name)
  }

  /** Byte `i` of the fixed part of a central file header. */
  function HeaderByte(item: Item, i: nat): byte {
    if i < 4 then Byte(CENTRAL_HEADER_SIGNATURE, i)
    else if i < 6 then Byte(item.madeBy, i - 4)
    else if i < 8 then Byte(item.needed, i - 6)
    else if i < 10 then Byte(item.flags, i - 8)
    else if i < 12 then Byte(item.entry.compression, i - 10)
    else if i < 14 then Byte(item.time, i - 12)
    else if i < 16 then Byte(item.date, i - 14)
    else if i < 20 then Byte(item.crc, i - 16)
    else if i < 24 then Byte(item.entry.compressedSize, i - 20)
    else if i < 28 then Byte(item.entry.uncompressedSize, i - 24)
    else if i < 30 then Byte(|item.entry.name|, i - 28)
    else if i < 32 then Byte(|item.extra|, i - 30)
    else if i < 34 then Byte(|item.comment|, i - 32)
    else if i < 36 then Byte(item.disk, i - 34)
    else if i < 38 then Byte(item.internalAttributes, i - 36)
    else if i < 42 then Byte(item.externalAttributes, i - 38)
    else Byte(item.entry.localHeaderOffset, i - 42)
  }

  function Fixed(item: Item): seq<byte> { seq(CENTRAL_MIN_SIZE, i requires i >= 0 => HeaderByte(item, i)) }

  function Header(item: Item): seq<byte> { Fixed(item) + item.entry.name + item.extra + item.comment }

  function Headers(items: seq<Item>): seq<byte> {
    if items == [] then [] else Header(items[0]) + Headers(items[1..])
  }

  /** Byte `i` of an end record. */
  function EndByte(count: nat, size: nat, offset: nat, comment: nat, i: nat): byte {
    if i < 4 then Byte(EOCD_SIGNATURE, i)
    else if i < 8 then 0
    else if i < 10 then Byte(count, i - 8)
    else if i < 12 then Byte(count, i - 10)
    else if i < 16 then Byte(size, i - 12)
    else if i < 20 then Byte(offset, i - 16)
    else Byte(comment, i - 20)
  }

  function EndRecord(count: nat, size: nat, offset: nat, comment: seq<byte>): seq<byte> {
    seq(EOCD_MIN_SIZE, i requires i >= 0 => EndByte(count, size, offset, |comment|, i)) + comment
  }

  /** An archive: local files, the central directory, and the end record. */
  function Archive(files: seq<byte>, items: seq<Item>, comment: seq<byte>): seq<byte> {
    files + Headers(items) + EndRecord(|items|, |Headers(items)|, |files|, comment)
  }

  function Entries(items: seq<Item>): (entries: seq<Entry>)
    ensures |entries| == |items|
    ensures forall i :: 0 <= i < |items| ==> entries[i] == items[i].entry
  {
    seq(|items|, i requires 0 <= i < |items| => items[i].entry)
  }

  // ---------- Reading what was written ----------

  /** The fixed part of the header of `item` stands in `dir` at `cursor`. */
  predicate Stands(dir: seq<byte>, cursor: nat, item: Item) {
    cursor + CENTRAL_MIN_SIZE <= |dir| &&
    forall i :: cursor <= i < cursor + CENTRAL_MIN_SIZE ==> dir[i] == HeaderByte(item, i - cursor)
  }

  lemma Field16(dir: seq<byte>, cursor: nat, item: Item, i: nat, n: nat)
    requires Stands(dir, cursor, item) && i + 2 <= CENTRAL_MIN_SIZE && n <= MAX16
    requires HeaderByte(item, i) == Byte(n, 0) && HeaderByte(item, i + 1) == Byte(n, 1)
    ensures U16(dir, cursor + i) == n
  {
    hide HeaderByte, Byte;
    Bytes16(n, dir, cursor + i);
  }

  lemma Field32(dir: seq<byte>, cursor: nat, item: Item, i: nat, n: nat)
    requires Stands(dir, cursor, item) && i + 4 <= CENTRAL_MIN_SIZE && n <= MAX32
    requires HeaderByte(item, i) == Byte(n, 0) && HeaderByte(item, i + 1) == Byte(n, 1)
    requires HeaderByte(item, i + 2) == Byte(n, 2) && HeaderByte(item, i + 3) == Byte(n, 3)
    ensures U32(dir, cursor + i) == n
  {
    hide HeaderByte, Byte;
    Bytes32(n, dir, cursor + i);
  }

  lemma FixedReads(dir: seq<byte>, cursor: nat, item: Item)
    requires Fits(item) && Stands(dir, cursor, item)
    ensures U32(dir, cursor) == CENTRAL_HEADER_SIGNATURE
    ensures U16(dir, cursor + 8) == item.flags && U16(dir, cursor + 10) == item.entry.compression
    ensures U32(dir, cursor + 20) == item.entry.compressedSize && U32(dir, cursor + 24) == item.entry.uncompressedSize
    ensures U16(dir, cursor + 28) == |item.entry.name| && U16(dir, cursor + 30) == |item.extra|
    ensures U16(dir, cursor + 32) == |item.comment| && U32(dir, cursor + 42) == item.entry.localHeaderOffset
  {
    hide Stands, Byte, U16, U32;
    Field32(dir, cursor, item, 0, CENTRAL_HEADER_SIGNATURE);
    Field16(dir, cursor, item, 8, item.flags);
    Field16(dir, cursor, item, 10, item.entry.compression);
    Field32(dir, cursor, item, 20, item.entry.compressedSize);
    Field32(dir, cursor, item, 24, item.entry.uncompressedSize);
    Field16(dir, cursor, item, 28, |item.entry.name|);
    Field16(dir, cursor, item, 30, |item.extra|);
    Field16(dir, cursor, item, 32, |item.comment|);
    Field32(dir, cursor, item, 42, item.entry.localHeaderOffset);
  }

  /** A header that stands whole in the directory is read as it was written. */
  lemma HeaderReads(dir: seq<byte>, cursor: nat, item: Item)
    requires Fits(item) && cursor + |Header(item)| <= |dir| && dir[cursor..cursor + |Header(item)|] == Header(item)
    ensures cursor + CENTRAL_MIN_SIZE <= |dir| && U32(dir, cursor) == CENTRAL_HEADER_SIGNATURE
    ensures HeaderSize(dir, cursor) == |Header(item)| && U16(dir, cursor + 8) == item.flags
    ensures EntryAt(dir, cursor) == item.entry
  {
    var h := Header(item);
    assert Stands(dir, cursor, item) by {
      hide HeaderByte;
      forall i | cursor <= i < cursor + CENTRAL_MIN_SIZE ensures dir[i] == HeaderByte(item, i - cursor) {
        assert h[i - cursor] == Fixed(item)[i - cursor];
      }
    }
    hide HeaderByte, Byte, U16, U32, Stands, Fixed;
    FixedReads(dir, cursor, item);
    var n := |item.entry.name|;
    SliceOfSlice(dir, cursor, cursor + |h|, 46, 46 + n);
    SliceInside(Fixed(item), item.entry.name, item.extra, item.comment);
  }

  lemma SliceInside(a: seq<byte>, b: seq<byte>, c: seq<byte>, d: seq<byte>)
    ensures (a + b + c + d)[|a|..|a| + |b|] == b
  {
  }

  /** The whole header is accepted when the entry is. */
  lemma HeaderAccepted(dir: seq<byte>, cursor: nat, item: Item, total: nat, limits: Limits, fileSize: nat)
    requires Fits(item) && cursor + |Header(item)| <= |dir| && dir[cursor..cursor + |Header(item)|] == Header(item)
    requires total <= limits.maxTotalBytes
    ensures var r := ReadHeader(dir, cursor, total, limits, fileSize);
            && (r.Ok? <==> Accepted(item, limits, fileSize) && total + Counted(item.entry) <= limits.maxTotalBytes)
            && (r.Ok? ==> r.value == (item.entry, total + Counted(item.entry)))
  {
    hide Header, Checked, ReadHeader, EntryAt, IsSafe, FlagsAccepted, U16, U32, HeaderSize;
    HeaderReads(dir, cursor, item);
    WholeHeader(dir, cursor, total, limits, fileSize);
    CheckAccepts(item.entry, item.flags, total, limits, fileSize);
  }

  lemma WholeHeader(dir: seq<byte>, cursor: nat, total: nat, limits: Limits, fileSize: nat)
    requires cursor + CENTRAL_MIN_SIZE <= |dir| && U32(dir, cursor) == CENTRAL_HEADER_SIGNATURE
    requires cursor + HeaderSize(dir, cursor) <= |dir|
    ensures var e := EntryAt(dir, cursor);
            var c, r := Checked(e, U16(dir, cursor + 8), total, limits, fileSize),
                        ReadHeader(dir, cursor, total, limits, fileSize);
            (r.Ok? <==> c.Ok?) && (r.Ok? ==> r.value == (e, c.value))
  {
    hide EntryAt, Checked, U16, U32, HeaderSize;
  }

  ghost predicate Accepted(item: Item, limits: Limits, fileSize: nat) {
    FlagsAccepted(item.flags) && IsSafe(item.entry, limits, fileSize)
  }

  ghost predicate AllFit(items: seq<Item>) {
    forall item :: item in items ==> Fits(item)
  }

  ghost predicate AllAccepted(items: seq<Item>, limits: Limits, fileSize: nat) {
    forall item :: item in items ==> Accepted(item, limits, fileSize)
  }

  lemma {:induction false} EntriesRead(dir: seq<byte>, cursor: nat, items: seq<Item>, total: nat, limits: Limits,
                                       fileSize: nat)
    requires cursor <= |dir| && dir[cursor..] == Headers(items) && total <= limits.maxTotalBytes && AllFit(items)
    ensures var r := ReadEntries(dir, cursor, |items|, total, limits, fileSize);
            && (r.Ok? <==>
                  AllAccepted(items, limits, fileSize) && total + Total(Entries(items)) <= limits.maxTotalBytes)
            && (r.Ok? ==> r.value == Entries(items))
    decreases |items|
  {
    hide Header, Headers, HeaderSize, ReadHeader, Accepted, Fits, AllFit, AllAccepted, Total, Entries,
      Counted, ReadEntries;
    if items == [] {
      NothingRead(dir, cursor, items, total, limits, fileSize);
    } else {
      var item, rest := items[0], items[1..];
      FirstHeader(dir, cursor, items);
      MoreItems(items, limits, fileSize);
      HeaderAccepted(dir, cursor, item, total, limits, fileSize);
      HeaderReads(dir, cursor, item);
      ReadsOn(dir, cursor, |items|, total, limits, fileSize);
      if total + Counted(item.entry) <= limits.maxTotalBytes {
        EntriesRead(dir, cursor + |Header(item)|, rest, total + Counted(item.entry), limits, fileSize);
      }
    }
  }

  lemma NothingRead(dir: seq<byte>, cursor: nat, items: seq<Item>, total: nat, limits: Limits, fileSize: nat)
    requires items == []
    ensures ReadEntries(dir, cursor, |items|, total, limits, fileSize) == Ok(Entries(items))
    ensures AllAccepted(items, limits, fileSize) && Total(Entries(items)) == 0
  {
  }

  /** Reading goes on behind the header that was read. */
  lemma ReadsOn(dir: seq<byte>, cursor: nat, count: nat, total: nat, limits: Limits, fileSize: nat)
    requires count > 0
    ensures var r, h := ReadEntries(dir, cursor, count, total, limits, fileSize),
                        ReadHeader(dir, cursor, total, limits, fileSize);
            && (h.Err? ==> r == Err(h.fault))
            && (h.Ok? ==>
                  && cursor + CENTRAL_MIN_SIZE <= |dir|
                  && r == Before([h.value.0], ReadEntries(dir, cursor + HeaderSize(dir, cursor), count - 1, h.value.1,
                                                          limits, fileSize)))
  {
    hide EntryAt, Checked, U16, U32;
  }

  lemma MoreItems(items: seq<Item>, limits: Limits, fileSize: nat)
    requires items != []
    ensures AllFit(items) <==> Fits(items[0]) && AllFit(items[1..])
    ensures AllAccepted(items, limits, fileSize) <==>
            Accepted(items[0], limits, fileSize) && AllAccepted(items[1..], limits, fileSize)
    ensures Entries(items) == [items[0].entry] + Entries(items[1..])
    ensures Total(Entries(items)) == Counted(items[0].entry) + Total(Entries(items[1..]))
  {
    hide Fits, Accepted, Counted;
    assert items == [items[0]] + items[1..];
    MoreEntries(items);
    hide Entries;
    assert Entries(items)[1..] == Entries(items[1..]);
  }

  lemma MoreEntries(items: seq<Item>)
    requires items != []
    ensures Entries(items) == [items[0].entry] + Entries(items[1..])
  {
  }

  lemma FirstHeader(dir: seq<byte>, cursor: nat, items: seq<Item>)
    requires items != [] && cursor <= |dir| && dir[cursor..] == Headers(items)
    ensures var next := cursor + |Header(items[0])|;
            next <= |dir| && dir[cursor..next] == Header(items[0]) && dir[next..] == Headers(items[1..])
  {
    hide Header;
    var size := |Header(items[0])|;
    assert dir[cursor..cursor + size] == dir[cursor..][..size];
    assert dir[cursor + size..] == dir[cursor..][size..];
  }

  // ---------- The end record ----------

  lemma {:induction false} LastEndIs(file: seq<byte>, low: nat, end: nat, p: nat)
    requires low <= end < p && IsEnd(file, end)
    requires forall q :: end < q < p ==> !IsEnd(file, q)
    ensures LastEnd(file, low, p) == Ok(end)
    decreases p
  {
    hide IsEnd;
    if p - 1 != end {
      LastEndIs(file, low, end, p - 1);
    }
  }

  predicate EndStands(file: seq<byte>, end: nat, count: nat, size: nat, offset: nat, comment: nat) {
    end + EOCD_MIN_SIZE <= |file| &&
    forall i :: end <= i < end + EOCD_MIN_SIZE ==> file[i] == EndByte(count, size, offset, comment, i - end)
  }

  lemma EndReads(file: seq<byte>, end: nat, count: nat, size: nat, offset: nat, comment: nat)
    requires EndStands(file, end, count, size, offset, comment)
    requires count <= MAX16 && size <= MAX32 && offset <= MAX32
    ensures U32(file, end) == EOCD_SIGNATURE && U16(file, end + 4) == 0 && U16(file, end + 10) == count
    ensures U32(file, end + 12) == size && U32(file, end + 16) == offset
  {
    hide Byte, U16, U32;
    Bytes32(EOCD_SIGNATURE, file, end);
    assert Byte(0, 0) == Byte(0, 1) == 0 by {
      ZeroBytes();
    }
    Bytes16(0, file, end + 4);
    Bytes16(count, file, end + 10);
    Bytes32(size, file, end + 12);
    Bytes32(offset, file, end + 16);
  }

  lemma ZeroBytes()
    ensures Byte(0, 0) == Byte(0, 1) == 0
  {
  }

  /** An archive that the reader accepts: within the limits, with only safe entries. */
  ghost predicate Acceptable(files: seq<byte>, items: seq<Item>, fileSize: nat, limits: Limits) {
    && |items| < MAX16 && |items| <= limits.maxEntries
    && |Headers(items)| <= MAX_CENTRAL_DIRECTORY_BYTES && |files| < MAX32
    && AllAccepted(items, limits, fileSize)
    && Total(Entries(items)) <= limits.maxTotalBytes
  }

  lemma ArchiveParts(files: seq<byte>, items: seq<Item>, comment: seq<byte>)
    ensures var a, dir := Archive(files, items, comment), Headers(items);
            && |a| == |files| + |dir| + EOCD_MIN_SIZE + |comment|
            && a[|files|..|files| + |dir|] == dir
            && EndStands(a, |files| + |dir|, |items|, |dir|, |files|, |comment|)
  {
    var a, dir := Archive(files, items, comment), Headers(items);
    var r := EndRecord(|items|, |dir|, |files|, comment);
    var end := |files| + |dir|;
    hide EndByte, Headers;
    forall i | end <= i < end + EOCD_MIN_SIZE
      ensures a[i] == EndByte(|items|, |dir|, |files|, |comment|, i - end)
    {
      assert a[i] == r[i - end];
    }
  }

  /** Reading what was written: the reader returns exactly the entries of an acceptable archive, and
      refuses every other one. Its comment must not look like another end record. */
  lemma ArchiveRoundTrip(files: seq<byte>, items: seq<Item>, comment: seq<byte>, limits: Limits)
    requires AllFit(items) && |items| <= MAX16 && |comment| <= MAX16
    requires |Headers(items)| <= MAX32 && |files| <= MAX32
    requires var a := Archive(files, items, comment);
             forall q :: |files| + |Headers(items)| < q < |a| ==> !IsEnd(a, q)
    ensures var a := Archive(files, items, comment);
            && (ReadDirectory(a, limits).Ok? <==> Acceptable(files, items, |a|, limits))
            && (ReadDirectory(a, limits).Ok? ==> ReadDirectory(a, limits).value == Entries(items))
  {
    hide Headers, EndByte, Archive, ReadEntries, AllAccepted, AllFit, ReadAt, U16, U32;
    var a, end := Archive(files, items, comment), |files| + |Headers(items)|;
    ArchiveParts(files, items, comment);
    EndReads(a, end, |items|, |Headers(items)|, |files|, |comment|);
    LastEndIs(a, |a| - Min(|a|, MAX_EOCD_SEARCH), end, |a| - EOCD_MIN_SIZE + 1);
    ReadAtEnd(a, end, files, items, limits);
  }

  lemma ReadAtEnd(file: seq<byte>, end: nat, files: seq<byte>, items: seq<Item>, limits: Limits)
    requires AllFit(items) && end + EOCD_MIN_SIZE <= |file|
    requires U16(file, end + 4) == 0 && U16(file, end + 10) == |items|
    requires U32(file, end + 12) == |Headers(items)| && U32(file, end + 16) == |files|
    requires |files| + |Headers(items)| <= |file|
    requires file[|files|..|files| + |Headers(items)|] == Headers(items)
    ensures ReadAt(file, end, limits).Ok? <==> Acceptable(files, items, |file|, limits)
    ensures ReadAt(file, end, limits).Ok? ==> ReadAt(file, end, limits).value == Entries(items)
  {
    hide U16, U32, Headers, ReadEntries, AllAccepted, AllFit;
    var dir := Headers(items);
    assert dir[0..] == dir;
    EntriesRead(dir, 0, items, 0, limits, |file|);
  }

  /** Without a comment nothing can look like another end record. */
  lemma PlainArchiveRoundTrip(files: seq<byte>, items: seq<Item>, limits: Limits)
    requires AllFit(items) && |items| <= MAX16
    requires |Headers(items)| <= MAX32 && |files| <= MAX32
    ensures var a := Archive(files, items, []);
            && (ReadDirectory(a, limits).Ok? <==> Acceptable(files, items, |a|, limits))
            && (ReadDirectory(a, limits).Ok? ==> ReadDirectory(a, limits).value == Entries(items))
  {
    hide Headers, Archive, ReadDirectory, Acceptable, AllFit;
    ArchiveParts(files, items, []);
    ArchiveRoundTrip(files, items, [], limits);
  }

  /** In any file the reader goes by the last end record among the bytes it searches. */
  lemma ReadsTheLastEnd(file: seq<byte>, end: nat, limits: Limits)
    requires IsEnd(file, end) && |file| - Min(|file|, MAX_EOCD_SEARCH) <= end
    requires forall q :: end < q < |file| ==> !IsEnd(file, q)
    ensures ReadDirectory(file, limits) == ReadAt(file, end, limits)
  {
    hide U32, ReadAt;
    LastEndIs(file, |file| - Min(|file|, MAX_EOCD_SEARCH), end, |file| - EOCD_MIN_SIZE + 1);
  }

  /** So a comment that is an end record of its own, of no entries, makes any archive read as empty. */
  lemma CommentHidesTheArchive(files: seq<byte>, items: seq<Item>, limits: Limits)
    ensures ReadDirectory(Archive(files, items, EndRecord(0, 0, 0, [])), limits) == Ok([])
  {
    var comment := EndRecord(0, 0, 0, []);
    var a := Archive(files, items, comment);
    var end := |a| - EOCD_MIN_SIZE;
    ArchiveParts(files, items, comment);
    hide EndByte, Headers;
    forall i | end <= i < end + EOCD_MIN_SIZE ensures a[i] == EndByte(0, 0, 0, 0, i - end) {
      assert a[i] == comment[i - end];
    }
    hide Archive, EndRecord, U16, U32;
    EndReads(a, end, 0, 0, 0, 0);
    ReadsTheLastEnd(a, end, limits);
  }

  // ---------- The reading loops ----------

  /** The search goes backward through the last bytes of the file. */
  method FindEnd(file: seq<byte>) returns (r: Result<nat>)
    requires |file| >= EOCD_MIN_SIZE
    ensures r == LastEnd(file, |file| - Min(|file|, MAX_EOCD_SEARCH), |file| - EOCD_MIN_SIZE + 1)
  {
    var searchLength := Min(|file|, MAX_EOCD_SEARCH);
    var start := |file| - searchLength;
    var tail := file[start..];
    var cursor: int := searchLength - EOCD_MIN_SIZE;
    while cursor >= 0
      invariant -1 <= cursor <= searchLength - EOCD_MIN_SIZE
      invariant LastEnd(file, start, |file| - EOCD_MIN_SIZE + 1) == LastEnd(file, start, start + cursor + 1)
    {
      if U32(tail, cursor) == EOCD_SIGNATURE {
        return Ok(start + cursor);
      }
      cursor := cursor - 1;
    }
    r := Err(NoEnd);
  }

  method ReadZipDirectory(file: seq<byte>, limits: Limits) returns (r: Result<seq<Entry>>)
    ensures r == ReadDirectory(file, limits)
  {
    hide LastEnd, ReadEntries, U16, U32;
    if |file| < EOCD_MIN_SIZE {
      return Err(ArchiveTruncated);
    }
    var found := FindEnd(file);
    if found.Err? {
      return Err(found.fault);
    }
    var end := found.value;
    if end + EOCD_MIN_SIZE > |file| {
      return Err(NoEnd);
    }
    var entryCount, directorySize, directoryOffset := U16(file, end + 10), U32(file, end + 12), U32(file, end + 16);
    if U16(file, end + 4) != 0 {
      return Err(MultiVolume);
    }
    if entryCount == MAX16 || directorySize == MAX32 || directoryOffset == MAX32 {
      return Err(Zip64);
    }
    if entryCount > limits.maxEntries {
      return Err(TooManyEntries);
    }
    if directorySize > MAX_CENTRAL_DIRECTORY_BYTES {
      return Err(DirectoryTooLarge);
    }
    if directoryOffset + directorySize > |file| {
      return Err(DirectoryOutside);
    }
    r := ReadAll(file[directoryOffset..directoryOffset + directorySize], entryCount, limits, |file|);
  }

  /** The cursor loop. */
  method ReadAll(dir: seq<byte>, count: nat, limits: Limits, fileSize: nat) returns (r: Result<seq<Entry>>)
    ensures r == ReadEntries(dir, 0, count, 0, limits, fileSize)
  {
    hide ReadEntries, ReadHeader, HeaderSize, Before;
    var entries: seq<Entry>, total: nat, cursor: nat, index: nat := [], 0, 0, 0;
    ghost var all := ReadEntries(dir, 0, count, 0, limits, fileSize);
    BeforeNone(all);
    while index < count
      invariant index <= count
      invariant all == Before(entries, ReadEntries(dir, cursor, count - index, total, limits, fileSize))
    {
      ReadSteps(entries, dir, cursor, count - index, total, limits, fileSize);
      var read := ReadHeader(dir, cursor, total, limits, fileSize);
      if read.Err? {
        return Err(read.fault);
      }
      entries, total := entries + [read.value.0], read.value.1;
      cursor := cursor + HeaderSize(dir, cursor);
      index := index + 1;
    }
    ReadEnds(entries, dir, cursor, total, limits, fileSize);
    r := Ok(entries);
  }

  /** A result after some entries. */
  function Before(entries: seq<Entry>, r: Result<seq<Entry>>): Result<seq<Entry>> {
    if r.Err? then r else Ok(entries + r.value)
  }

  lemma BeforeNone(r: Result<seq<Entry>>)
    ensures Before([], r) == r
  {
    if r.Ok? {
      assert [] + r.value == r.value;
    }
  }

  lemma ReadEnds(entries: seq<Entry>, dir: seq<byte>, cursor: nat, total: nat, limits: Limits, fileSize: nat)
    ensures Before(entries, ReadEntries(dir, cursor, 0, total, limits, fileSize)) == Ok(entries)
  {
    assert entries + [] == entries;
  }

  lemma ReadSteps(entries: seq<Entry>, dir: seq<byte>, cursor: nat, count: nat, total: nat, limits: Limits,
                  fileSize: nat)
    requires count > 0
    ensures var all, h := Before(entries, ReadEntries(dir, cursor, count, total, limits, fileSize)),
                          ReadHeader(dir, cursor, total, limits, fileSize);
            && (h.Err? ==> all == Err(h.fault))
            && (h.Ok? ==>
                  && cursor + CENTRAL_MIN_SIZE <= |dir|
                  && all == Before(entries + [h.value.0], ReadEntries(dir, cursor + HeaderSize(dir, cursor), count - 1,
                                                                      h.value.1, limits, fileSize)))
  {
    ReadsOn(dir, cursor, count, total, limits, fileSize);
    hide ReadEntries, ReadHeader, HeaderSize;
    var h := ReadHeader(dir, cursor, total, limits, fileSize);
    if h.Ok? {
      BeforeMore(entries, h.value.0, ReadEntries(dir, cursor + HeaderSize(dir, cursor), count - 1, h.value.1, limits,
                                                 fileSize));
    }
  }

  lemma BeforeMore(entries: seq<Entry>, e: Entry, r: Result<seq<Entry>>)
    ensures Before(entries, Before([e], r)) == Before(entries + [e], r)
  {
    if r.Ok? {
      assert entries + ([e] + r.value) == (entries + [e]) + r.value;
    }
  }
}
