/** Member metadata of the reproducible ZIP writer: the `ZipInfo` record that
    `ReproducibleZipFile.writestr` builds for each member, the external file
    attributes word it chooses (section 4.4.15 of PKWARE's APPNOTE.TXT), and
    the fixed modification date (section 4.4.6 of APPNOTE.TXT). */
module Records {

  newtype byte = x: int | 0 <= x < 256

  datatype Option<T> = None | Some(value: T)

  /** A `date_time` 6-tuple as `ZipInfo` keeps it. */
  datatype DateTime = DateTime(year: int, month: int, day: int, hour: int, minute: int, second: int)

  /** 1980-01-01 00:00:00, the earliest instant the MS-DOS date and time
      fields of a ZIP header can hold; every member gets this date. */
  const FixedDateTime := DateTime(1980, 1, 1, 0, 0, 0)

  /** The standard library's compression constants (ZIP_STORED, ZIP_DEFLATED,
      ZIP_BZIP2, ZIP_LZMA). */
  datatype Compression = Stored | Deflated | Bzip2 | Lzma

  /** The metadata of one member (`zipfile.ZipInfo`), as far as this writer
      sets it. */
  datatype ZipInfo = ZipInfo(
    filename: string,
    dateTime: DateTime,
    externalAttr: bv32,
    compressType: Compression,
    compressLevel: Option<int>)

  /** One entry of the archive's `filelist`, with the payload written for it. */
  datatype Member = Member(info: ZipInfo, data: seq<byte>)

  /** The first argument of `writestr`: an archive name or a `ZipInfo`. */
  datatype NameOrInfo = ArcName(name: string) | Info(zinfo: ZipInfo)

  // ---------------------------------------------------------------------
  // The external file attributes word: Unix mode in the upper 16 bits,
  // MS-DOS attribute bits in the lower 16.

  /** Octal 40775: directory type bits plus rwxrwxr-x. */
  const DirMode: bv32 := 0x41FD
  /** Octal 600: rw------- with no file type bits. */
  const FileMode: bv32 := 0x180
  /** The MS-DOS "directory" attribute bit. */
  const DosDirectory: bv32 := 0x10
  /** Octal 170000 and 040000: the Unix file type mask and its directory value. */
  const TypeMask: bv32 := 0xF000
  const TypeDirectory: bv32 := 0x4000

  /** The Unix mode stored in the upper half of the word. */
  function UnixMode(attr: bv32): bv32 { attr >> 16 }

  /** The MS-DOS attribute half of the word. */
  function DosAttrs(attr: bv32): bv32 { attr & 0xFFFF }

  /** The permission bits (octal 777) of the Unix mode. */
  function Permissions(attr: bv32): bv32 { UnixMode(attr) & 0x1FF }

  predicate IsUnixDirectory(attr: bv32) { UnixMode(attr) & TypeMask == TypeDirectory }

  predicate IsDosDirectory(attr: bv32) { attr & DosDirectory != 0 }

  /** Packs a Unix mode and MS-DOS attributes into one word. */
  function EncodeAttr(mode: bv16, dos: bv16): bv32
  {
    (mode as bv32 << 16) | dos as bv32
  }

  /** Unpacking a packed word gives back both halves. */
  lemma DecodeEncodeAttr(mode: bv16, dos: bv16)
    ensures UnixMode(EncodeAttr(mode, dos)) == mode as bv32
    ensures DosAttrs(EncodeAttr(mode, dos)) == dos as bv32
  {
  }

  predicate EndsWithSlash(name: string)
  {
    |name| > 0 && name[|name| - 1] == '/'
  }

  /** The attribute word `writestr` assigns to a member named by a string:
      a directory word for a name ending in `/`, a private-file word otherwise. */
  function AttrFor(name: string): (attr: bv32)
    ensures EndsWithSlash(name) ==>
      UnixMode(attr) == DirMode && DosAttrs(attr) == DosDirectory && Permissions(attr) == 0x1FD
    ensures !EndsWithSlash(name) ==>
      UnixMode(attr) == FileMode && DosAttrs(attr) == 0 && Permissions(attr) == 0x180
    ensures IsUnixDirectory(attr) <==> EndsWithSlash(name)
    ensures IsDosDirectory(attr) <==> EndsWithSlash(name)
  {
    if EndsWithSlash(name) then
      DecodeEncodeAttr(0x41FD, 0x10);
      EncodeAttr(0x41FD, 0x10)
    else
      DecodeEncodeAttr(0x180, 0);
      EncodeAttr(0x180, 0)
  }

  // ---------------------------------------------------------------------
  // The record built by writestr

  /** The name the new record takes from `writestr`'s first argument. */
  function TargetName(target: NameOrInfo): string
  {
    match target
    case ArcName(n) => n
    case Info(z) => z.filename
  }

  /** The fresh `ZipInfo` that `writestr` builds before handing it to the
      standard library. A string name gets the fixed date, the archive's
      compression defaults and the attribute word chosen by the name's
      suffix. A `ZipInfo` argument contributes only its filename; the new
      record gets the fixed date and the `ZipInfo` constructor's defaults
      (no attribute word, stored, no level). */
  function Normalize(target: NameOrInfo, compression: Compression, compresslevel: Option<int>): (r: ZipInfo)
    ensures r.dateTime == FixedDateTime
    ensures r.filename == TargetName(target)
    ensures target.ArcName? ==> r.compressType == compression && r.compressLevel == compresslevel
    ensures target.ArcName? ==>
      (IsUnixDirectory(r.externalAttr) <==> EndsWithSlash(r.filename)) &&
      (IsDosDirectory(r.externalAttr) <==> EndsWithSlash(r.filename))
    ensures target.ArcName? && EndsWithSlash(r.filename) ==>
      UnixMode(r.externalAttr) == DirMode && DosAttrs(r.externalAttr) == DosDirectory
    ensures target.ArcName? && !EndsWithSlash(r.filename) ==>
      UnixMode(r.externalAttr) == FileMode && DosAttrs(r.externalAttr) == 0
    ensures target.Info? ==> r.externalAttr == 0 && r.compressType == Stored && r.compressLevel == None
  {
    match target
    case ArcName(n) => ZipInfo(n, FixedDateTime, AttrFor(n), compression, compresslevel)
    case Info(z) => ZipInfo(z.filename, FixedDateTime, 0, Stored, None)
  }

  /** Only the filename of a `ZipInfo` argument matters: two arguments that
      differ in date, mode or compression settings give the same record and,
      with the same payload and per-call settings, the same appended member. */
  lemma InfoOnlyNameMatters(
    z1: ZipInfo, z2: ZipInfo, data: seq<byte>,
    compressType: Option<Compression>, compresslevel: Option<int>,
    archiveCompression: Compression, archiveLevel: Option<int>)
    requires z1.filename == z2.filename
    ensures Normalize(Info(z1), archiveCompression, archiveLevel) == Normalize(Info(z2), archiveCompression, archiveLevel)
    ensures NewMember(Info(z1), data, compressType, compresslevel, archiveCompression, archiveLevel)
         == NewMember(Info(z2), data, compressType, compresslevel, archiveCompression, archiveLevel)
  {
  }

  /** The standard library's `writestr` rule for its per-call arguments: a
      given `compress_type` or `compresslevel` replaces the record's own. */
  function ApplyOverrides(info: ZipInfo, compressType: Option<Compression>, compresslevel: Option<int>): (r: ZipInfo)
    ensures r.filename == info.filename && r.dateTime == info.dateTime && r.externalAttr == info.externalAttr
    ensures compressType.Some? ==> r.compressType == compressType.value
    ensures compressType.None? ==> r.compressType == info.compressType
    ensures compresslevel.Some? ==> r.compressLevel == compresslevel
    ensures compresslevel.None? ==> r.compressLevel == info.compressLevel
  {
    info.(
      compressType := if compressType.Some? then compressType.value else info.compressType,
      compressLevel := if compresslevel.Some? then compresslevel else info.compressLevel)
  }

  /** The member one `writestr` call appends to the archive. */
  function NewMember(
    target: NameOrInfo, data: seq<byte>,
    compressType: Option<Compression>, compresslevel: Option<int>,
    archiveCompression: Compression, archiveLevel: Option<int>): (m: Member)
    ensures m.data == data
    ensures m.info.filename == TargetName(target)
    ensures m.info.dateTime == FixedDateTime
    ensures m.info.externalAttr == (if target.ArcName? then AttrFor(target.name) else 0)
    ensures m.info.compressType ==
      if compressType.Some? then compressType.value
      else if target.ArcName? then archiveCompression
      else Stored
    ensures m.info.compressLevel ==
      if compresslevel.Some? then compresslevel
      else if target.ArcName? then archiveLevel
      else None
  {
    Member(ApplyOverrides(Normalize(target, archiveCompression, archiveLevel), compressType, compresslevel), data)
  }
}
