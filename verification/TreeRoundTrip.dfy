/** A directory tree survives upload followed by download. */
module TreeRoundTrip {
  import opened CLib
  import opened UstarHeader
  import opened HeaderFormat
  import opened SafePath
  import opened TarArchive
  import opened FileTree
  import opened FileSystem
  import opened TreeNames
  import opened Extraction
  import opened TarEntries
  import opened TarExtraction
  import opened ExtractionResult
  import opened ArchiveGrammar
  import opened ChunkIndependence
  import opened CodecRoundTrip
  import opened TarDownload
  import opened Traversal
  import opened Upload
  import opened UploadSession
  import Z = ZtarUnpack

  /** The files of a tree under their names in the archive. */
  function ArchiveFiles(leaves: seq<Leaf>): (files: seq<File>)
    requires AllRelative(leaves)
    ensures |files| == |leaves|
  {
    seq(|leaves|, i requires 0 <= i < |leaves| => (assert IsRelative(leaves[i].path); File(Slashed(leaves[i].path), leaves[i].data)))
  }

  /** Every file's path below the destination, with its slash and its end mark, fits the limit. */
  predicate CombinedPathsFit(dest: Bytes, leaves: seq<Leaf>)
    requires AllRelative(leaves)
  {
    forall i :: 0 <= i < |leaves| ==> |dest| + |ArchiveFiles(leaves)[i].name| + 2 <= 256
  }

  // ---------------------------------------------------------------------------------------------
  // The names of a tree's files
  // ---------------------------------------------------------------------------------------------

  lemma {:induction false} UploadedFiles(source: Bytes, nodes: seq<Node>)
    requires source != [] && ValidNodes(nodes)
    ensures AllRelative(Leaves(nodes))
    ensures forall i :: 0 <= i < |FilesBelow(source, nodes)| ==> source <= FilesBelow(source, nodes)[i].path
    ensures AsFiles(source, FilesBelow(source, nodes)) == ArchiveFiles(Leaves(nodes))
  {
    hide FilesBelow, Leaves, Descend, Slashed, IsRelative, ValidNodes;
    var leaves := Leaves(nodes);
    LeavesAreRelative(nodes);
    ListingIsLeaves(source, nodes);
    forall i | 0 <= i < |leaves|
      ensures source <= FilesBelow(source, nodes)[i].path
      ensures AsFile(source, FilesBelow(source, nodes)[i]) == ArchiveFiles(leaves)[i]
    {
      assert IsRelative(leaves[i].path);
      RelativeNameIsSlashed(source, leaves[i].path);
    }
  }

  /** The last component of the combined path is the file's own name. */
  lemma {:induction false} LastNameIsKept(dest: Bytes, p: Path)
    requires IsRelative(p)
    ensures !IsSkipped(FilePart(FullPath(dest, Slashed(p))))
  {
    hide Slashed, Components, IsSafePath, LastSlash;
    var full := FullPath(dest, Slashed(p));
    SplitAtLastSlash(dest, Slashed(p));
    SlashedIsProper(p);
    var last := FilePart(full);
    ComponentsOfJoin(dest, Slashed(p));
    ComponentsOfJoin(DirPart(full), last);
    ResolveOfComponent(last);
    var all := Components(full);
    assert all[|all| - 1] == last;
    assert all[|all| - 1] == p[|p| - 1];
    assert IsName(p[|p| - 1]);
  }

  lemma {:induction false} RelativeNameIsGood(dest: Bytes, p: Path)
    requires IsRelative(p)
    ensures GoodName(dest, Slashed(p)) <==> |dest| + |Slashed(p)| + 2 <= MAX_PATH_SIZE
  {
    hide Slashed, Components, IsSafePath, LastSlash;
    SlashedIsProper(p);
    LastNameIsKept(dest, p);
  }

  /** The names of a tree's files can be extracted exactly when the combined paths fit. */
  lemma {:induction false} TreeIsExtractable(dest: Bytes, nodes: seq<Node>, names: seq<Bytes>)
    requires ValidNodes(nodes) && DistinctNodes(nodes) && AllRelative(Leaves(nodes))
    requires |names| == |Leaves(nodes)|
    requires forall i :: 0 <= i < |names| ==> names[i] == ArchiveFiles(Leaves(nodes))[i].name
    ensures Extractable(dest, names) <==> CombinedPathsFit(dest, Leaves(nodes))
  {
    hide Leaves, Slashed, IsRelative, ValidNodes, DistinctNodes, GoodName, Resolve, AtOrUnder;
    var leaves := Leaves(nodes);
    LeavesApart(nodes);
    forall i | 0 <= i < |names|
      ensures Resolve(names[i]) == leaves[i].path
      ensures GoodName(dest, names[i]) <==> |dest| + |ArchiveFiles(leaves)[i].name| + 2 <= MAX_PATH_SIZE
    {
      assert IsRelative(leaves[i].path);
      SlashedIsProper(leaves[i].path);
      RelativeNameIsGood(dest, leaves[i].path);
    }
    forall i, j | 0 <= i < |names| && 0 <= j < |names| && i != j
      ensures !AtOrUnder(Resolve(names[i]), Resolve(names[j]))
    {
      assert if i < j then Apart(leaves[i], leaves[j]) else Apart(leaves[j], leaves[i]);
    }
  }

  // ---------------------------------------------------------------------------------------------
  // The members of the archive
  // ---------------------------------------------------------------------------------------------

  lemma {:induction false} TreeMembers(leaves: seq<Leaf>)
    requires AllRelative(leaves) && AllPackable(ArchiveFiles(leaves)) && AllRepresentable(ArchiveFiles(leaves))
    ensures var ms := MembersOf(ArchiveFiles(leaves));
            && AllFiles(ms) && |ms| == |leaves|
            && (forall i :: 0 <= i < |leaves| ==> FileName(ms[i].header) == ArchiveFiles(leaves)[i].name)
            && (forall i :: 0 <= i < |leaves| ==> ms[i].data == leaves[i].data)
  {
    hide Slashed, IsRelative, FileName, FileSize, IsFile, Packable, Representable, MemberOf, LosesLeadingSlash;
    var files := ArchiveFiles(leaves);
    var ms := MembersOf(files);
    forall i | 0 <= i < |leaves|
      ensures IsFile(ms[i]) && FileName(ms[i].header) == files[i].name
      ensures ms[i].data == leaves[i].data
    {
      assert IsRelative(leaves[i].path) && Packable(files[i]) && Representable(files[i]);
      MemberReadsBack(files[i]);
      PackedIsFile(files[i]);
      SlashedIsProper(leaves[i].path);
      RootedNamesLose(files[i].name);
    }
  }

  /** The members are files, all of them. */
  predicate AllFiles(ms: seq<Member>) { forall i :: 0 <= i < |ms| ==> IsFile(ms[i]) }

  lemma {:induction false} PackedIsFile(f: File)
    requires Packable(f)
    ensures IsFile(MemberOf(f))
  {
    hide PackHeader, HasNumbers;
    PackHeaderAccepts(f.name, |f.data|);
    PackedHeaderLayout(f.name, |f.data|);
  }

  /** Names and contents then belong to the members one by one. */
  lemma {:induction false} AllFilesInOrder(ms: seq<Member>)
    requires AllFiles(ms)
    ensures OthersAreEmpty(ms) && |NamesOf(ms)| == |DataOf(ms)| == |ms|
    ensures forall i :: 0 <= i < |ms| ==> NamesOf(ms)[i] == FileName(ms[i].header) && DataOf(ms)[i] == ms[i].data
  {
    hide IsFile, FileName;
    if ms != [] {
      AllFilesInOrder(ms[1..]);
      assert forall i :: 0 < i < |ms| ==> ms[i] == ms[1..][i - 1];
    }
  }

  lemma {:induction false} RootedNamesLose(name: Bytes)
    requires name != [] && name[0] != SLASH
    ensures !LosesLeadingSlash(name)
  {
  }

  // ---------------------------------------------------------------------------------------------
  // Round trip
  // ---------------------------------------------------------------------------------------------

  /** Below `d` the file system has exactly the regular files of the tree, with their contents. */
  ghost predicate SameFiles(nodes: seq<Node>, d: Path, fs: Nodes) {
    forall p: Path, data: Bytes :: p != [] ==>
      (HoldsFile(fs, d + p, data) <==> FileAt(nodes, p, data))
  }

  ghost predicate HoldsFile(fs: Nodes, p: Path, data: Bytes) { p in fs && fs[p] == Regular(data) }

  lemma {:induction false} HoldingIsSameFiles(
    start: Nodes, d: Path, nodes: seq<Node>, names: seq<Bytes>, contents: seq<Bytes>, fs: Nodes)
    requires |names| == |contents| == |Leaves(nodes)| && Holding(start, d, names, contents, fs)
    requires forall i :: 0 <= i < |names| ==>
               Resolve(names[i]) == Leaves(nodes)[i].path && contents[i] == Leaves(nodes)[i].data
    ensures SameFiles(nodes, d, fs)
  {
    hide Leaves, FileAt, Resolve, WellFormedFs, SameElsewhere;
    var leaves := Leaves(nodes);
    forall p: Path, data: Bytes | p != []
      ensures HoldsFile(fs, d + p, data) <==> FileAt(nodes, p, data)
    {
      LeavesAreFiles(nodes, p, data);
      if HoldsFile(fs, d + p, data) {
        assert Under(d, d + p) by { assert (d + p)[..|d|] == d; }
        assert NamesFile(d, names, d + p);
        var i :| 0 <= i < |names| && d + p == d + Resolve(names[i]);
        assert p == (d + p)[|d|..] == Resolve(names[i]);
        assert leaves[i] == Leaf(p, data);
      }
      if Leaf(p, data) in leaves {
        var i :| 0 <= i < |leaves| && leaves[i] == Leaf(p, data);
        assert d + Resolve(names[i]) in fs && fs[d + Resolve(names[i])] == Regular(contents[i]);
      }
    }
  }

  /** What extracting the tree's archive does, whatever the parser needed to get there. */
  lemma {:induction false} TreeIsExtracted(start: Nodes, dest: Bytes, nodes: seq<Node>)
    requires ValidNodes(nodes) && DistinctNodes(nodes) && AllRelative(Leaves(nodes))
    requires AllPackable(ArchiveFiles(Leaves(nodes))) && AllRepresentable(ArchiveFiles(Leaves(nodes)))
    requires WellFormedFs(start) && EmptyDirectory(start, Resolve(dest))
    ensures var ms := MembersOf(ArchiveFiles(Leaves(nodes)));
            var after := Extracted(start, dest, LoggedAll([], ms)).nodes;
            && (AgreesToAll(TarCallbacks(start, dest), [], ms) <==> CombinedPathsFit(dest, Leaves(nodes)))
            && (CombinedPathsFit(dest, Leaves(nodes)) ==>
                  SameFiles(nodes, Resolve(dest), after) && SameElsewhere(start, Resolve(dest), after))
  {
    hide Leaves, Slashed, IsRelative, ValidNodes, DistinctNodes, Resolve, MembersOf, AllPackable, AllRepresentable,
      WellFormedFs, EmptyDirectory, SameFiles, SameElsewhere, CombinedPathsFit, Extractable, Extracted, LoggedAll, AllFiles, OthersAreEmpty, NamesOf, DataOf;
    var leaves := Leaves(nodes);
    var ms := MembersOf(ArchiveFiles(leaves));
    TreeMembers(leaves);
    AllFilesInOrder(ms);
    OtherMembersAreSkipped(start, dest, ms);
    TreeIsExtractable(dest, nodes, NamesOf(ms));
    if CombinedPathsFit(dest, leaves) {
      forall i | 0 <= i < |leaves| ensures Resolve(NamesOf(ms)[i]) == leaves[i].path {
        assert IsRelative(leaves[i].path);
        SlashedIsProper(leaves[i].path);
      }
      HoldingIsSameFiles(start, Resolve(dest), nodes, NamesOf(ms), DataOf(ms), Extracted(start, dest, LoggedAll([], ms)).nodes);
    }
  }

  /** The cursor lists the whole directory, the packer packs it, and `bytes` is what is sent. */
  ghost predicate Uploads(source: Bytes, nodes: seq<Node>, bytes: Bytes)
    requires source != [] && NulFree(source) && Fits(source) && ValidNodes(nodes)
  {
    hide Fits, ValidNodes, FilesBelow, Listable, Drain, AllPackable, Archive;
    && Listable(source, nodes, 1) && SizesFit(FilesBelow(source, nodes))
    && var files := Drain(Start(source, nodes)).files;
       && (forall i :: 0 <= i < |files| ==> source <= files[i].path)
       && AllPackable(AsFiles(source, files)) && bytes == Archive(AsFiles(source, files))
  }

  /**
   Tree round trip. Take any directory tree the cursor lists and the packer packs, cut the archive it
   uploads into any chunks, and download those into an empty directory: the download is accepted if
   and only if all combined paths fit, and then the file system holds below the destination exactly
   the tree's regular files, by relative path and content, and elsewhere what it held before.
   */
  lemma {:induction false} TreeSurvives(
    source: Bytes, nodes: seq<Node>, start: Nodes, dest: Bytes, chunks: seq<Bytes>)
    requires source != [] && NulFree(source) && Fits(source) && ValidNodes(nodes) && DistinctNodes(nodes)
    requires chunks != [] && Uploads(source, nodes, Concat(chunks))
    requires WellFormedFs(start) && EmptyDirectory(start, Resolve(dest))
    ensures AllRelative(Leaves(nodes))
    ensures var r := Request(TarCallbacks(start, dest), Z.INITIAL, chunks);
            var after := Extracted(start, dest, r.parser.log).nodes;
            && (r.error.None? <==> CombinedPathsFit(dest, Leaves(nodes)))
            && (r.error.None? ==> SameFiles(nodes, Resolve(dest), after) && SameElsewhere(start, Resolve(dest), after))
  {
    hide Leaves, FilesBelow, ValidNodes, DistinctNodes, Resolve, MembersOf, AllPackable, AllRepresentable, Fits, Listable,
      Drain, WellFormedFs, EmptyDirectory, SameFiles, SameElsewhere, CombinedPathsFit, Extracted, LoggedAll,
      AgreesToAll, IsArchiveOf, Request, Archive, Additive, TarCallbacks, Representable, Concat;
    CursorRefinesWalk(source, nodes);
    UploadedFiles(source, nodes);
    var files := ArchiveFiles(Leaves(nodes));
    var cb := TarCallbacks(start, dest);
    assert AllRepresentable(files) by { ListedAreRepresentable(source, nodes); }
    TarCallbacksAreAdditive(start, dest);
    ArchiveIsInTheGrammar(files);
    AcceptanceIsTheGrammar(cb, chunks);
    TreeIsExtracted(start, dest, nodes);
    if Request(cb, Z.INITIAL, chunks).error.None? {
      var ms :| IsArchiveOf(Concat(chunks), ms) && AgreesToAll(cb, [], ms);
      GrammarIsUnambiguous(Concat(chunks), ms, MembersOf(files));
    }
  }

  lemma {:induction false} ListedAreRepresentable(source: Bytes, nodes: seq<Node>)
    requires source != [] && NulFree(source) && Fits(source) && ValidNodes(nodes)
    requires Listable(source, nodes, 1) && SizesFit(FilesBelow(source, nodes))
    requires AllRelative(Leaves(nodes))
    requires forall i :: 0 <= i < |FilesBelow(source, nodes)| ==> source <= FilesBelow(source, nodes)[i].path
    requires AsFiles(source, FilesBelow(source, nodes)) == ArchiveFiles(Leaves(nodes))
    ensures AllRepresentable(ArchiveFiles(Leaves(nodes)))
  {
    hide Leaves, FilesBelow, ValidNodes, Fits, Listable, Drain, ListedPath;
    CursorRefinesWalk(source, nodes);
    var fs := FilesBelow(source, nodes);
    forall i | 0 <= i < |fs| ensures Representable(AsFiles(source, fs)[i]) {
      RelativeNameIsValid(source, fs[i].path);
    }
  }
}
