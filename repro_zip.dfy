/** `ReproducibleZipFile`: a ZIP archive opened for writing whose members all
    carry fixed metadata and whose member list is kept sorted by filename.
    The standard library's serialisation of each member (local header,
    compressed data, and at close the central directory) is an abstract
    "append a record" step: `written` is the order in which members went to
    the output, `filelist` is the list the central directory is built from. */
module ReproZip {
  import opened Records
  import opened FileList

  class ReproducibleZipFile {
    /** The archive-wide defaults given when the archive was opened. */
    const compression: Compression
    const compresslevel: Option<int>
    /** The members in central-directory order. */
    var filelist: seq<Member>
    /** The members in the order their local headers and data were written. */
    var written: seq<Member>

    /** `filelist` is always the stable sort of everything written so far,
        and every member in it carries the fixed date. */
    ghost predicate Valid()
      reads this
    {
      && filelist == SortByName(written)
      && forall m :: m in filelist ==> m.info.dateTime == FixedDateTime
    }

    /** An archive newly opened in mode "w": no members yet. */
    constructor (compression: Compression, compresslevel: Option<int>)
      ensures Valid()
      ensures this.compression == compression && this.compresslevel == compresslevel
      ensures filelist == [] && written == []
    {
      this.compression := compression;
      this.compresslevel := compresslevel;
      filelist := [];
      written := [];
    }

    /** `writestr`: builds a fresh record for the name or `ZipInfo`, lets the
        standard library append it with `data`, then re-sorts `filelist`. */
    method WriteStr(zinfoOrArcname: NameOrInfo, data: seq<byte>,
                    compressType: Option<Compression>, compresslevel: Option<int>)
      requires Valid()
      modifies this
      ensures Valid()
      ensures var m := NewMember(zinfoOrArcname, data, compressType, compresslevel,
                                 this.compression, this.compresslevel);
        && written == old(written) + [m]
        && filelist == SortByName(old(filelist) + [m])
        && filelist == Insert(old(filelist), m)
        && multiset(filelist) == multiset(old(filelist)) + multiset{m}
      ensures Sorted(filelist)
      ensures forall name :: Named(filelist, name) == Named(written, name)
    {
      var zinfo := Normalize(zinfoOrArcname, this.compression, this.compresslevel);
      // super().writestr: per-call settings, then the member is written and
      // appended to filelist.
      var m := Member(ApplyOverrides(zinfo, compressType, compresslevel), data);
      assert m == NewMember(zinfoOrArcname, data, compressType, compresslevel,
                            this.compression, this.compresslevel);
      ghost var f0, w0 := filelist, written;
      written := written + [m];
      filelist := filelist + [m];
      filelist := SortByName(filelist);
      AppendStep(f0, w0, m);
    }

    /** `write`: stores the file's bytes under `arcname`, or under the path
        itself when no name is given, always through the string branch of
        `writestr`. `contents` is the result of reading the file; `None`
        stands for a read that raised, in which case nothing is written. */
    method Write(filename: string, arcname: Option<string>, contents: Option<seq<byte>>,
                 compressType: Option<Compression>, compresslevel: Option<int>)
      returns (ok: bool)
      requires Valid()
      modifies this
      ensures Valid()
      ensures ok <==> contents.Some?
      ensures !ok ==> filelist == old(filelist) && written == old(written)
      ensures ok ==>
        var name := if arcname.Some? then arcname.value else filename;
        var m := NewMember(ArcName(name), contents.value, compressType, compresslevel,
                           this.compression, this.compresslevel);
        && written == old(written) + [m]
        && filelist == Insert(old(filelist), m)
        && m.info.filename == name && m.data == contents.value
    {
      var name := if arcname.Some? then arcname.value else filename;
      if contents.None? {
        return false;
      }
      WriteStr(ArcName(name), contents.value, compressType, compresslevel);
      ok := true;
    }
  }

  /** One `writestr` on a consistent archive keeps it consistent: re-sorting
      after the append is inserting the new member, and gives the same list
      as sorting the whole arrival order at once. */
  lemma AppendStep(f0: seq<Member>, w0: seq<Member>, m: Member)
    requires f0 == SortByName(w0)
    requires forall x :: x in f0 ==> x.info.dateTime == FixedDateTime
    requires m.info.dateTime == FixedDateTime
    ensures SortByName(f0 + [m]) == SortByName(w0 + [m]) == Insert(f0, m)
    ensures multiset(SortByName(f0 + [m])) == multiset(f0) + multiset{m}
    ensures forall x :: x in SortByName(f0 + [m]) ==> x.info.dateTime == FixedDateTime
    ensures Sorted(SortByName(f0 + [m]))
    ensures forall name :: Named(SortByName(f0 + [m]), name) == Named(w0 + [m], name)
  {
    ResortAfterAppend(w0, m);
    AppendThenSort(f0, m);
    var f1 := SortByName(f0 + [m]);
    forall x | x in f1
      ensures x.info.dateTime == FixedDateTime
    {
      assert x in multiset(f1);
    }
    forall name
      ensures Named(f1, name) == Named(w0 + [m], name)
    {
      SortByNameStable(w0 + [m], name);
    }
  }
}
