# Reproducible ZIP writer — verified model

This project models `ReproducibleZipFile` from `reprozip.py`, a subclass of
Python's `zipfile.ZipFile`. It makes archives byte-for-byte reproducible by
normalising member metadata. It overrides two methods:

- `writestr` replaces whatever date the caller would get with the fixed date
  1980-01-01 00:00:00. That is the earliest date the MS-DOS date and time
  fields can hold (section 4.4.6 of PKWARE's APPNOTE.TXT).
- `writestr` also picks the external file attributes word by the name's
  suffix (section 4.4.15 of APPNOTE.TXT). It copies the archive's compression
  defaults into the record. A `ZipInfo` argument contributes only its
  filename.
- After every member it re-sorts the archive's `filelist` by filename with
  Python's stable `sorted`.
- `write` reads a file and hands its bytes to `writestr` under `arcname`, or
  under the path when no name is given.

The model has four modules:

- `NameOrder` (`name_order.dfy`): Python's string order (code point by code
  point, a proper prefix first). It is proved to be a total order.
- `Records` (`records.dfy`): the `ZipInfo` record, the attribute word with
  its encoding and decoding, and `Normalize`, the record `writestr` builds.
  `NewMember` is the member that one call appends.
- `FileList` (`file_list.dfy`): the re-sort as an insertion sort. The result
  is proved sorted, a permutation and stable. It is also proved to be the
  only sequence with those properties, so it is what Python's `sorted`
  returns. For distinct names it is proved independent of call order.
- `ReproZip` (`repro_zip.dfy`): the class `ReproducibleZipFile`.
  - `filelist` is the list the central directory is written from.
  - `written` is the order in which members went to the output stream.
  - The invariant `Valid()` says `filelist` is always the stable sort of
    `written`, and every member in it has the fixed date.

The standard library's `ZipFile.writestr` is modelled as an abstract step.
It applies the per-call `compress_type`/`compresslevel` when they are given.
Then it appends the member to the output and to `filelist`.

How `reprozip.py` orders and names members:

- It re-sorts `filelist` after every `writestr` call, not once at close.
- `write` appends no trailing `/` for directories.
- It has no `SOURCE_DATE_EPOCH` handling and no mode override.

## Model

| member | source | states |
|---|---|---|
| `NameOrder.NameLe` | reprozip.py:36 | Python's string order used as the sort key comparison: a prefix of a name sorts at or before it |
| `NameOrder.NameLeAtFirstDifference` | reprozip.py:36 | two names that agree up to a position and differ there are ordered by their code points at that position |
| `NameOrder.NameLeReflexive` | reprozip.py:36 | every filename is at most itself under Python's string order |
| `NameOrder.NameLeTotal` | reprozip.py:36 | any two filenames are comparable, so sorting by filename is well defined |
| `NameOrder.NameLeAntisymmetric` | reprozip.py:36 | two filenames each at most the other are equal |
| `NameOrder.NameLeTransitive` | reprozip.py:36 | the filename order is transitive |
| `Records.DecodeEncodeAttr` | reprozip.py:25-28 | packing a Unix mode into the upper 16 bits and MS-DOS bits into the lower 16 bits can be undone: both halves decode back |
| `Records.AttrFor` | reprozip.py:24-28 | for a name ending in `/` the word decodes to mode 0o40775 (permissions 0o775) with the MS-DOS directory bit 0x10 as the only low bits; otherwise to mode 0o600 with zero low bits; the Unix directory type and the MS-DOS directory bit are set exactly when the name ends in `/` |
| `Records.Normalize` | reprozip.py:20-30 | the new record always has the fixed date 1980-01-01 00:00:00 and the argument's filename; for a string name it has the archive's compression defaults and the attribute word above; for a `ZipInfo` it has no attribute word, stored compression and no level, whatever the argument carried |
| `Records.InfoOnlyNameMatters` | reprozip.py:29-34 | two `ZipInfo` arguments with the same filename give the same record, and with the same payload and per-call settings the same appended member, however their dates, modes and compression differ |
| `Records.ApplyOverrides` | reprozip.py:32-34 | the standard library's rule for the forwarded per-call arguments: a given `compress_type` or `compresslevel` replaces the record's own, an absent one keeps it, and filename, date and attribute word are untouched |
| `Records.NewMember` | reprozip.py:19-34 | the appended member has the given payload, the argument's filename and the fixed date; its compression is the per-call setting when given, else the archive default for a string name, else stored |
| `FileList.Insert` | reprozip.py:36 | inserting a member adds exactly that member: the result's multiset is the old one plus it |
| `FileList.SortByName` | reprozip.py:36 | the re-sorted list is ascending by filename and a permutation of its input |
| `FileList.NamedSound` | reprozip.py:36 | a name group holds only members of the list that carry that name |
| `FileList.InsertSorted` | reprozip.py:36 | inserting into a sorted list keeps it sorted |
| `FileList.InsertNamed` | reprozip.py:36 | insertion puts the member at the end of its own name group and changes no other group |
| `FileList.SortByNameStable` | reprozip.py:36 | members with equal filenames keep their relative arrival order after the re-sort |
| `FileList.SortedDeterminedByGroups` | reprozip.py:36 | two sorted lists with the same name groups, in the same order, are equal |
| `FileList.SortByNameUnique` | reprozip.py:36 | any sorted arrangement that keeps every name group in arrival order equals `SortByName`, so the model computes exactly Python's stable `sorted` |
| `FileList.SortByNameOfSorted` | reprozip.py:36 | re-sorting an already sorted list leaves it unchanged |
| `FileList.AppendThenSort` | reprozip.py:32-36 | appending a member to a sorted list and re-sorting is inserting it after its equally named peers |
| `FileList.ResortAfterAppend` | reprozip.py:32-36 | re-sorting after each call gives the same list as one sort of all members in arrival order |
| `FileList.OrderIndependent` | reprozip.py:36 | for members with distinct filenames, any two arrival orders of the same members give the same sorted list |
| `FileList.SameGroupsOfDistinct` | reprozip.py:36 | with distinct filenames, the name groups depend only on which members are present |
| `ReproZip.AppendStep` | reprozip.py:32-36 | one call on a consistent archive gives a list that is sorted, equals both the insertion and the sort of the whole arrival order, holds the old members plus the new one, keeps the fixed date on every member, and keeps each name group in arrival order |
| `ReproZip.ReproducibleZipFile.constructor` | reprozip.py:7 | a newly opened archive has no members and records the compression defaults |
| `ReproZip.ReproducibleZipFile.WriteStr` | reprozip.py:19-36 | appends exactly the normalised member to the output order; `filelist` becomes `sorted(old filelist + [member])`, which is the insertion of the member, a permutation of the old list plus that member, sorted, and stable per name; the invariant holds again |
| `ReproZip.ReproducibleZipFile.Write` | reprozip.py:8-17 | stores the file's bytes under `arcname`, or under the path when `arcname` is absent, through the string branch of `writestr`; when reading the file fails nothing changes |

## Left out

- The ZIP byte format is not modelled: local file headers, CRC-32, compressed data, the central directory and the end-of-central-directory record. The standard library writes them, and its code is not part of this model. The append step is abstract.
- Byte-identical output under different call order is not claimed. Local headers and data are still written in call order (`written`). Only `filelist`, from which the central directory is built, is re-sorted.
- Compression algorithms are not modelled. Compression is a tag carried on each record.
- Reading the file in `write` is not modelled. The outcome of `Path(filename).read_bytes()` is a parameter, and `None` stands for the read raising.
- `str()` of a `pathlib.Path` is not modelled. It drops a trailing `/` and collapses repeated separators. The model takes the path already as a string.
- The `ZipInfo` constructor's internals are not modelled: truncation at a NUL character, separator conversion and packing of the DOS date. The filename is carried as given.
- The standard library's own adjustments inside `ZipFile.writestr` are not modelled: flag bits, CRC and sizes, encoding a `str` payload as UTF-8, and giving a zero attribute word a default when it opens the member. The record in the `ZipInfo` branch is stated as `writestr` builds it, with no attribute word.
- `ReproZip.ReproducibleZipFile.constructor` covers mode "w" only. Modes "a" and "x", which start from an existing or exclusive file, are not modelled. So are the checks on a closed archive and on an open writing handle, which the standard library performs.
- `ReproZip.ReproducibleZipFile.WriteStr` takes the payload as bytes. Python also accepts a `str`, which the standard library encodes.
- Integer widths need no wrap-around. The attribute word is a 32-bit value and both chosen words fit in it.
- Concurrency is not modelled. The writer is single-threaded.
- `ReproZip.ReproducibleZipFile.WriteStr` models only a successful append by the standard library. The library can fail after `reprozip.py` has built the record. Then `super().writestr` raises, nothing is appended, and line 36 never runs. The failures left out are:
  - a `compresslevel` the compressor rejects (for example 10 with DEFLATE, or a level outside 1-9 with bzip2), which leaves a writing handle marked open so that later calls fail too;
  - a compressor module that is missing;
  - I/O errors while writing the member.
  The library's `Duplicate name` warning is not modelled either; it does not stop the append.
