/** What is on disk after a successful extraction. */
module ExtractionResult {
  import opened CLib
  import opened UstarHeader
  import opened SafePath
  import opened FileTree
  import opened FileSystem
  import opened Extraction
  import opened TarEntries
  import opened TarExtraction
  import opened TarArchive
  import opened CodecRoundTrip
  import opened ArchiveGrammar
  import Z = ZtarUnpack

  /** A file name that denotes a new file: it fits, is safe, and does not end in a "." component. */
  predicate GoodName(dest: Bytes, name: Bytes) {
    NameFits(dest, name) && !IsSkipped(FilePart(FullPath(dest, name)))
  }

  /** No file is, or lies inside, another. */
  ghost predicate PrefixFree(names: seq<Bytes>) {
    forall i, j :: 0 <= i < |names| && 0 <= j < |names| && i != j ==>
      !AtOrUnder(Resolve(names[i]), Resolve(names[j]))
  }

  /**
   Below `d` there are exactly the files so far, with their contents, and directories that lead to
   them; everything else is as it was.
   */
  ghost predicate Holding(start: Nodes, d: Path, names: seq<Bytes>, contents: seq<Bytes>, nodes: Nodes)
    requires |names| == |contents|
  {
    && WellFormedFs(nodes) && IsDirectory(nodes, d)
    && SameElsewhere(start, d, nodes)
    && FilesPresent(d, names, contents, nodes)
    && OnlyThoseFiles(d, names, nodes)
  }

  ghost predicate FilesPresent(d: Path, names: seq<Bytes>, contents: seq<Bytes>, nodes: Nodes)
    requires |names| == |contents|
  {
    forall i :: 0 <= i < |names| ==>
      d + Resolve(names[i]) in nodes && nodes[d + Resolve(names[i])] == Regular(contents[i])
  }

  ghost predicate OnlyThoseFiles(d: Path, names: seq<Bytes>, nodes: Nodes) {
    forall p :: p in nodes && Under(d, p) ==>
      if nodes[p].Regular? then NamesFile(d, names, p) else LeadsToFile(d, names, p)
  }

  ghost predicate NamesFile(d: Path, names: seq<Bytes>, p: Path) {
    exists i :: 0 <= i < |names| && p == d + Resolve(names[i])
  }

  ghost predicate LeadsToFile(d: Path, names: seq<Bytes>, p: Path) {
    exists i :: 0 <= i < |names| && Under(p, d + Resolve(names[i]))
  }

  lemma {:induction false} EmptyHolds(start: Nodes, d: Path)
    requires WellFormedFs(start) && EmptyDirectory(start, d)
    ensures Holding(start, d, [], [], start)
  {
  }

  // ---------------------------------------------------------------------------------------------
  // One more file
  // ---------------------------------------------------------------------------------------------

  /** A good name denotes a new entry of the directory its directory part denotes, below `dest`. */
  lemma {:induction false} GoodNameResolves(dest: Bytes, name: Bytes)
    requires GoodName(dest, name)
    ensures var d, q, full := Resolve(dest), Resolve(DirPart(FullPath(dest, name))), Resolve(FullPath(dest, name));
            && full == d + Resolve(name) && full != [] && Parent(full) == q
            && AtOrUnder(d, q) && Under(d, full)
  {
    hide Resolve, NameFits, LastSlash;
    var full := FullPath(dest, name);
    SplitAtLastSlash(dest, name);
    DirPartIsBelow(dest, name);
    assert Resolve(full) == Resolve(DirPart(full)) + [FilePart(full)];
    assert Resolve(full)[..|Resolve(dest)|] == Resolve(DirPart(full))[..|Resolve(dest)|];
  }

  /** What is at or above the new file, and already there, is a directory; the new file is not there. */
  lemma {:induction false} NoFileInTheWay(
    start: Nodes, d: Path, names: seq<Bytes>, contents: seq<Bytes>, nodes: Nodes, name: Bytes, k: Path)
    requires |names| == |contents| && Holding(start, d, names, contents, nodes)
    requires PrefixFree(names + [name])
    requires k in nodes && AtOrUnder(k, d + Resolve(name)) && Under(d, d + Resolve(name))
    ensures nodes[k].Directory? && k != d + Resolve(name)
  {
    hide Resolve, WellFormedFs;
    var f := d + Resolve(name);
    var all := names + [name];
    assert all[|names|] == name && d <= f;
    assert forall i :: 0 <= i < |names| ==> all[i] == names[i];
    Comparable(k, d, f);
    if Under(d, k) {
      if nodes[k].Regular? {
        assert NamesFile(d, names, k);
        var i :| 0 <= i < |names| && k == d + Resolve(names[i]);
        UnderConcat(d, Resolve(names[i]), Resolve(name));
        assert false;
      }
      if k == f {
        assert LeadsToFile(d, names, k);
        var i :| 0 <= i < |names| && Under(k, d + Resolve(names[i]));
        UnderConcat(d, Resolve(name), Resolve(names[i]));
        assert false;
      }
    } else if k != d {
      assert Under(k, d);
      AncestorsAreDirectories(nodes, d, k);
    }
  }

  /** The directories made on the way are new, below the destination, and lead to the new file. */
  lemma {:induction false} MadeBelow(nodes: Nodes, made: Nodes, d: Path, q: Path, f: Path, k: Path)
    requires WellFormedFs(nodes) && d in nodes && AtOrUnder(d, q) && f != [] && q == Parent(f)
    requires Grown(nodes, made, q) && k in made && k !in nodes
    ensures Under(d, k) && Under(k, f) && made[k].Directory?
  {
    hide WellFormedFs;
    UnderParent(f, k);
    Comparable(k, d, q);
    if !Under(d, k) && k != d {
      assert Under(k, d);
      AncestorsAreDirectories(nodes, d, k);
      assert false;
    }
  }

  lemma {:induction false} OpensNewFile(
    start: Nodes, dest: Bytes, names: seq<Bytes>, contents: seq<Bytes>, st: State, name: Bytes)
    requires |names| == |contents| && Holding(start, Resolve(dest), names, contents, st.nodes)
    requires GoodName(dest, name) && PrefixFree(names + [name])
    ensures var full := FullPath(dest, name);
            var f := Resolve(full);
            var made := MakeDirectories(st.nodes, Resolve(DirPart(full)));
            var r := OpenEntry(st, dest, name);
            && f == Resolve(dest) + Resolve(name) && Under(Resolve(dest), f)
            && made.ok && Grown(st.nodes, made.nodes, Parent(f)) && WellFormedFs(made.nodes) && f !in made.nodes
            && AtOrUnder(Resolve(dest), Parent(f))
            && r == Opened(State(made.nodes[f := Regular([])], Some(f)), true)
            && IsDirectory(made.nodes, Parent(f))
  {
    hide Resolve, MakeDirectories, NameFits, PrefixFree, Holding, DirPart, FilePart, WellFormedFs, IsSkipped;
    var full := FullPath(dest, name);
    var d, f, q := Resolve(dest), Resolve(full), Resolve(DirPart(full));
    assert WellFormedFs(st.nodes) by { HoldingIsWellFormed(start, d, names, contents, st.nodes); }
    GoodNameResolves(dest, name);
    assert q <= f && f[..|q|] == q;
    forall k | k in st.nodes && Under(k, q) ensures st.nodes[k].Directory? {
      assert k <= f by { assert f[..|k|] == q[..|k|]; }
      NoFileInTheWay(start, d, names, contents, st.nodes, name, k);
    }
    MakeDirectoriesSucceeds(st.nodes, q);
    MakeDirectoriesMakes(st.nodes, q);
    if q in st.nodes {
      NoFileInTheWay(start, d, names, contents, st.nodes, name, q);
    }
    if f in st.nodes {
      NoFileInTheWay(start, d, names, contents, st.nodes, name, f);
    }
    assert NameFits(dest, name);
  }

  lemma {:induction false} HoldingIsWellFormed(start: Nodes, d: Path, names: seq<Bytes>, contents: seq<Bytes>, nodes: Nodes)
    requires |names| == |contents| && Holding(start, d, names, contents, nodes)
    ensures WellFormedFs(nodes) && d in nodes
  {
  }

  /** The new file is where the directories on the way to it have been made. */
  ghost predicate RoomFor(nodes: Nodes, made: Nodes, d: Path, f: Path) {
    && f != [] && f !in made && Under(d, f) && AtOrUnder(d, Parent(f))
    && Grown(nodes, made, Parent(f)) && WellFormedFs(made) && IsDirectory(made, Parent(f))
  }

  lemma {:induction false} RoomIsBelow(nodes: Nodes, made: Nodes, d: Path, f: Path)
    requires WellFormedFs(nodes) && d in nodes && RoomFor(nodes, made, d, f)
    ensures forall k :: k in nodes ==> k in made && made[k] == nodes[k]
    ensures forall k :: k in made && k !in nodes ==> Under(d, k) && Under(k, f) && made[k].Directory?
  {
    hide WellFormedFs, Under, AtOrUnder;
    forall k | k in made && k !in nodes ensures Under(d, k) && Under(k, f) && made[k].Directory? {
      MadeBelow(nodes, made, d, Parent(f), f, k);
    }
  }

  lemma {:induction false} StillSameElsewhere(start: Nodes, nodes: Nodes, made: Nodes, d: Path, f: Path, data: Bytes)
    requires WellFormedFs(nodes) && d in nodes && RoomFor(nodes, made, d, f) && SameElsewhere(start, d, nodes)
    ensures SameElsewhere(start, d, made[f := Regular(data)])
  {
    RoomIsBelow(nodes, made, d, f);
    hide WellFormedFs, AtOrUnder, Under, Grown;
  }

  lemma {:induction false} StillPresent(
    nodes: Nodes, made: Nodes, d: Path, names: seq<Bytes>, contents: seq<Bytes>, name: Bytes, data: Bytes)
    requires |names| == |contents| && FilesPresent(d, names, contents, nodes)
    requires RoomFor(nodes, made, d, d + Resolve(name))
    ensures FilesPresent(d, names + [name], contents + [data], made[d + Resolve(name) := Regular(data)])
  {
    hide Resolve, Under, AtOrUnder, WellFormedFs;
    var names', contents' := names + [name], contents + [data];
    var after := made[d + Resolve(name) := Regular(data)];
    forall i | 0 <= i < |names'|
      ensures d + Resolve(names'[i]) in after && after[d + Resolve(names'[i])] == Regular(contents'[i])
    {
      if i < |names| {
        assert names'[i] == names[i] && contents'[i] == contents[i];
      }
    }
  }

  lemma {:induction false} NamedAmongMore(d: Path, names: seq<Bytes>, name: Bytes, p: Path)
    ensures NamesFile(d, names, p) || p == d + Resolve(name) ==> NamesFile(d, names + [name], p)
    ensures LeadsToFile(d, names, p) || Under(p, d + Resolve(name)) ==> LeadsToFile(d, names + [name], p)
  {
    hide Resolve, Under;
    var more := names + [name];
    assert more[|names|] == name;
    assert forall i :: 0 <= i < |names| ==> more[i] == names[i];
  }

  lemma {:induction false} StillOnlyThose(
    nodes: Nodes, made: Nodes, d: Path, names: seq<Bytes>, name: Bytes, data: Bytes)
    requires WellFormedFs(nodes) && d in nodes && OnlyThoseFiles(d, names, nodes)
    requires RoomFor(nodes, made, d, d + Resolve(name))
    ensures OnlyThoseFiles(d, names + [name], made[d + Resolve(name) := Regular(data)])
  {
    var f := d + Resolve(name);
    RoomIsBelow(nodes, made, d, f);
    hide WellFormedFs, AtOrUnder, Under, Grown, Resolve, NamesFile, LeadsToFile;
    var after := made[f := Regular(data)];
    forall p | p in after && Under(d, p)
      ensures if after[p].Regular? then NamesFile(d, names + [name], p) else LeadsToFile(d, names + [name], p)
    {
      NamedAmongMore(d, names, name, p);
    }
  }

  /** A file system with the directories `made` and a new file has everything that is asked for. */
  lemma {:induction false} HoldsOneMore(
    start: Nodes, d: Path, names: seq<Bytes>, contents: seq<Bytes>, nodes: Nodes, made: Nodes, name: Bytes, data: Bytes)
    requires |names| == |contents| && Holding(start, d, names, contents, nodes)
    requires RoomFor(nodes, made, d, d + Resolve(name))
    ensures Holding(start, d, names + [name], contents + [data], made[d + Resolve(name) := Regular(data)])
  {
    hide Resolve, AtOrUnder, Under, SameElsewhere, FilesPresent, OnlyThoseFiles, WellFormedFs;
    StillSameElsewhere(start, nodes, made, d, d + Resolve(name), data);
    StillPresent(nodes, made, d, names, contents, name, data);
    StillOnlyThose(nodes, made, d, names, name, data);
    NewFileKeeps(made, d + Resolve(name), data);
  }

  lemma {:induction false} NewFileKeeps(nodes: Nodes, f: Path, data: Bytes)
    requires WellFormedFs(nodes) && f != [] && f !in nodes && IsDirectory(nodes, Parent(f))
    ensures WellFormedFs(nodes[f := Regular(data)])
  {
  }

  /** A further file is opened, and with its data written the file system holds it too. */
  lemma {:induction false} ExtractsOneMore(
    start: Nodes, dest: Bytes, names: seq<Bytes>, contents: seq<Bytes>, st: State, name: Bytes, data: Bytes)
    requires |names| == |contents| && Holding(start, Resolve(dest), names, contents, st.nodes)
    requires GoodName(dest, name) && PrefixFree(names + [name])
    ensures OpenEntry(st, dest, name).ok && OpenEntry(st, dest, name).state.target.Some?
    ensures Holding(start, Resolve(dest), names + [name], contents + [data],
                    Written(OpenEntry(st, dest, name).state, data).nodes)
  {
    hide Resolve, MakeDirectories, NameFits, PrefixFree, Holding, DirPart, OpenEntry, GoodName, WellFormedFs, Grown;
    OpensNewFile(start, dest, names, contents, st, name);
    var d, full := Resolve(dest), FullPath(dest, name);
    var made := MakeDirectories(st.nodes, Resolve(DirPart(full))).nodes;
    var f := Resolve(full);
    HoldsOneMore(start, d, names, contents, st.nodes, made, name, data);
    assert [] + data == data;
    assert made[f := Regular([])][f := Regular(data)] == made[f := Regular(data)];
  }

  // ---------------------------------------------------------------------------------------------
  // Nothing else can be opened
  // ---------------------------------------------------------------------------------------------

  lemma {:induction false} OpensOnlyOutsideFiles(
    start: Nodes, d: Path, names: seq<Bytes>, contents: seq<Bytes>, nodes: Nodes, made: Nodes, name: Bytes)
    requires |names| == |contents| && Holding(start, d, names, contents, nodes) && PrefixFree(names)
    requires var f := d + Resolve(name);
             && f != [] && f !in made && WellFormedFs(made) && IsDirectory(made, Parent(f))
             && (forall k :: k in nodes ==> k in made && made[k] == nodes[k])
    ensures PrefixFree(names + [name])
  {
    hide Resolve, WellFormedFs;
    var f := d + Resolve(name);
    forall i | 0 <= i < |names|
      ensures !AtOrUnder(Resolve(names[i]), Resolve(name)) && !AtOrUnder(Resolve(name), Resolve(names[i]))
    {
      var g := d + Resolve(names[i]);
      assert g in made && made[g] == Regular(contents[i]);
      UnderConcat(d, Resolve(names[i]), Resolve(name));
      UnderConcat(d, Resolve(name), Resolve(names[i]));
      NothingAroundFile(made, f, g);
    }
    PrefixFreeGrows(names, name);
  }

  lemma {:induction false} NothingAroundFile(made: Nodes, f: Path, g: Path)
    requires WellFormedFs(made) && f != [] && f !in made && IsDirectory(made, Parent(f))
    requires g in made && made[g].Regular?
    ensures !AtOrUnder(g, f) && !AtOrUnder(f, g)
  {
    hide WellFormedFs;
    AtOrUnderMeaning(g, f);
    AtOrUnderMeaning(f, g);
    if Under(g, f) {
      UnderParent(f, g);
      if g != Parent(f) { AncestorsAreDirectories(made, Parent(f), g); }
    }
    if Under(f, g) {
      AncestorsAreDirectories(made, g, f);
    }
  }

  lemma {:induction false} PrefixFreeGrows(names: seq<Bytes>, name: Bytes)
    requires PrefixFree(names)
    requires forall i :: 0 <= i < |names| ==>
               !AtOrUnder(Resolve(names[i]), Resolve(name)) && !AtOrUnder(Resolve(name), Resolve(names[i]))
    ensures PrefixFree(names + [name])
  {
    hide Resolve, AtOrUnder;
    var more := names + [name];
    assert more[|names|] == name;
    assert forall i :: 0 <= i < |names| ==> more[i] == names[i];
  }

  /** An entry can be opened only under a good name that no file is in the way of. */
  lemma {:induction false} OpensOnlyNewFiles(
    start: Nodes, dest: Bytes, names: seq<Bytes>, contents: seq<Bytes>, st: State, name: Bytes)
    requires |names| == |contents| && Holding(start, Resolve(dest), names, contents, st.nodes) && PrefixFree(names)
    requires OpenEntry(st, dest, name).ok
    ensures GoodName(dest, name) && PrefixFree(names + [name])
  {
    hide Resolve, MakeDirectories, NameFits, PrefixFree, Holding, LastSlash, WellFormedFs, IsSkipped, KeptComponent;
    var full := FullPath(dest, name);
    var d, q := Resolve(dest), Resolve(DirPart(full));
    var made := MakeDirectories(st.nodes, q);
    assert WellFormedFs(st.nodes) by { HoldingIsWellFormed(start, d, names, contents, st.nodes); }
    MakeDirectoriesMakes(st.nodes, q);
    SplitAtLastSlash(dest, name);
    assert q in made.nodes && Resolve(full) !in made.nodes;
    if IsSkipped(FilePart(full)) { SkippedAddsNothing(q, FilePart(full)); }
    OpensOnlyOutsideFiles(start, d, names, contents, st.nodes, made.nodes, name);
  }

  lemma {:induction false} SkippedAddsNothing(q: Path, part: Bytes)
    requires IsSkipped(part)
    ensures q + KeptComponent(part) == q
  {
  }

  // ---------------------------------------------------------------------------------------------
  // More data for the file opened last
  // ---------------------------------------------------------------------------------------------

  /** The file that is open: the last one so far, if any. */
  ghost predicate LastIsOpen(d: Path, names: seq<Bytes>, target: Option<Path>) {
    target == if names == [] then None else Some(d + Resolve(names[|names| - 1]))
  }

  /** The contents so far, with more data at the end of the last file. */
  function WithMore(contents: seq<Bytes>, data: Bytes): (r: seq<Bytes>)
    ensures |r| == |contents|
  {
    if contents == [] then [] else contents[|contents| - 1 := contents[|contents| - 1] + data]
  }

  lemma {:induction false} LastGetsMore(
    start: Nodes, d: Path, names: seq<Bytes>, contents: seq<Bytes>, st: State, data: Bytes)
    requires |names| == |contents| && Holding(start, d, names, contents, st.nodes) && PrefixFree(names)
    requires names != [] && LastIsOpen(d, names, st.target)
    ensures Holding(start, d, names, WithMore(contents, data), Written(st, data).nodes)
  {
    hide Resolve, WellFormedFs, OnlyThoseFiles, NamesFile, LeadsToFile;
    var n := |names| - 1;
    var f := d + Resolve(names[n]);
    var after := Written(st, data).nodes;
    WrittenKeeps(st, data);
    assert f in st.nodes && st.nodes[f] == Regular(contents[n]);
    forall i | 0 <= i < n ensures d + Resolve(names[i]) != f {
      assert !AtOrUnder(Resolve(names[i]), Resolve(names[n]));
      SameBelow(d, Resolve(names[i]), Resolve(names[n]));
    }
    StillOnlyThoseWithMore(d, names, st, data);
    assert Under(d, f) by { assert f[..|d|] == d && f != d; }
    assert after == st.nodes[f := Regular(contents[n] + data)];
  }

  lemma {:induction false} SameBelow(d: Path, p: Path, q: Path)
    ensures d + p == d + q <==> p == q
  {
    assert (d + p)[|d|..] == p && (d + q)[|d|..] == q;
  }

  lemma {:induction false} StillOnlyThoseWithMore(d: Path, names: seq<Bytes>, st: State, data: Bytes)
    requires OnlyThoseFiles(d, names, st.nodes)
    ensures OnlyThoseFiles(d, names, Written(st, data).nodes)
  {
    hide NamesFile, LeadsToFile, Resolve;
  }

  // ---------------------------------------------------------------------------------------------
  // Whole archives
  // ---------------------------------------------------------------------------------------------

  /** Type '0', or the NUL of older archives. */
  predicate IsFile(m: Member) { m.header[156] == 48 || m.header[156] == 0 }

  /** The names of the members that are files. */
  function NamesOf(ms: seq<Member>): seq<Bytes> {
    if ms == [] then [] else (if IsFile(ms[0]) then [FileName(ms[0].header)] else []) + NamesOf(ms[1..])
  }

  /** What their files hold in the end: their data, and any data of other members that follow. */
  function Filled(contents: seq<Bytes>, ms: seq<Member>): (r: seq<Bytes>)
    ensures |r| == |contents| + |NamesOf(ms)|
    decreases |ms|
  {
    if ms == [] then contents
    else Filled(if IsFile(ms[0]) then contents + [ms[0].data] else WithMore(contents, ms[0].data), ms[1..])
  }

  function ContentsOf(ms: seq<Member>): (contents: seq<Bytes>)
    ensures |contents| == |NamesOf(ms)|
  {
    Filled([], ms)
  }

  /** Members that are no files carry data only after a file. */
  predicate DataHasFile(anyFile: bool, ms: seq<Member>)
    decreases |ms|
  {
    || ms == []
    || (if IsFile(ms[0]) then DataHasFile(true, ms[1..])
        else (ms[0].data == [] || anyFile) && DataHasFile(anyFile, ms[1..]))
  }

  /** Members that are no files, such as directories, carry no data at all. */
  predicate OthersAreEmpty(ms: seq<Member>) {
    forall i :: 0 <= i < |ms| ==> IsFile(ms[i]) || ms[i].data == []
  }

  /** The contents of the files alone. */
  function DataOf(ms: seq<Member>): seq<Bytes> {
    if ms == [] then [] else (if IsFile(ms[0]) then [ms[0].data] else []) + DataOf(ms[1..])
  }

  lemma {:induction false} NoMore(contents: seq<Bytes>)
    ensures WithMore(contents, []) == contents
  {
    if contents != [] { assert contents[|contents| - 1] + [] == contents[|contents| - 1]; }
  }

  lemma {:induction false} OthersAfterFirst(ms: seq<Member>)
    requires ms != [] && OthersAreEmpty(ms)
    ensures (IsFile(ms[0]) || ms[0].data == []) && OthersAreEmpty(ms[1..])
  {
    hide IsFile;
  }

  /** With nothing carried by the other members, each file holds exactly its own data. */
  lemma {:induction false} FilesHoldTheirData(contents: seq<Bytes>, anyFile: bool, ms: seq<Member>)
    requires OthersAreEmpty(ms)
    ensures DataHasFile(anyFile, ms) && Filled(contents, ms) == contents + DataOf(ms)
    decreases |ms|
  {
    hide IsFile, OthersAreEmpty, WithMore, NamesOf;
    if ms == [] {
      assert contents + [] == contents;
    } else {
      OthersAfterFirst(ms);
      if IsFile(ms[0]) {
        FilesHoldTheirData(contents + [ms[0].data], true, ms[1..]);
        Associative(contents, [ms[0].data], DataOf(ms[1..]));
      } else {
        FilesHoldTheirData(contents, anyFile, ms[1..]);
        NoMore(contents);
        assert [] + DataOf(ms[1..]) == DataOf(ms[1..]);
      }
    }
  }

  /** Every name is good, and no file is, or lies inside, another. */
  ghost predicate Extractable(dest: Bytes, names: seq<Bytes>) {
    (forall i :: 0 <= i < |names| ==> GoodName(dest, names[i])) && PrefixFree(names)
  }

  /** A file is opened and its data written; anything else opens nothing and its data goes where it is open. */
  lemma {:induction false} MemberApplied(start: Nodes, dest: Bytes, log: seq<Z.Entry>, m: Member)
    ensures var st := Extracted(start, dest, log);
            if IsFile(m) then
              var r := OpenEntry(st, dest, FileName(m.header));
              && Extracted(start, dest, Logged(log, m)) == Written(r.state, m.data)
              && (Agrees(TarCallbacks(start, dest), log, m) <==> r.ok)
            else
              && Extracted(start, dest, Logged(log, m)) == Written(st, m.data)
              && (Agrees(TarCallbacks(start, dest), log, m) <==> m.data == [] || st.target.Some?)
  {
    hide OpenEntry, FileName, Written;
    var st := Extracted(start, dest, log);
    var r := OpenEntry(st, dest, FileName(m.header));
    assert Logged(log, m)[..|log|] == log;
    var begun := Z.Started(log, m.header);
    assert begun[..|log|] == log;
    WrittenTarget(r.state, []);
    WrittenTarget(st, []);
    OpenedHasTarget(st, dest, FileName(m.header));
  }

  lemma {:induction false} OpenedHasTarget(st: State, dest: Bytes, name: Bytes)
    ensures OpenEntry(st, dest, name).ok ==> OpenEntry(st, dest, name).state.target.Some?
  {
    hide Resolve, MakeDirectories, NameFits;
  }

  lemma {:induction false} ExtractableFirst(dest: Bytes, names: seq<Bytes>, name: Bytes, others: seq<Bytes>)
    requires PrefixFree(names + ([name] + others))
    ensures PrefixFree(names + [name])
  {
    hide Resolve, AtOrUnder;
    var whole, more := names + ([name] + others), names + [name];
    assert forall i :: 0 <= i < |more| ==> more[i] == whole[i];
  }

  /** The names that are still to come are all good. */
  ghost predicate AllGood(dest: Bytes, names: seq<Bytes>) {
    forall i :: 0 <= i < |names| ==> GoodName(dest, names[i])
  }

  lemma {:induction false} AllGoodOfMore(dest: Bytes, name: Bytes, others: seq<Bytes>)
    ensures AllGood(dest, [name] + others) <==> GoodName(dest, name) && AllGood(dest, others)
  {
    hide GoodName;
    var more := [name] + others;
    assert more[0] == name;
    assert forall i :: 0 <= i < |others| ==> others[i] == more[i + 1];
  }

  /** The file system and the open file after so many files. */
  ghost predicate Reached(start: Nodes, dest: Bytes, names: seq<Bytes>, contents: seq<Bytes>, st: State) {
    && |names| == |contents| && PrefixFree(names)
    && Holding(start, Resolve(dest), names, contents, st.nodes) && LastIsOpen(Resolve(dest), names, st.target)
  }

  /** A file that is opened is good and new, and then the file system holds it with its data. */
  lemma {:induction false} FileReached(
    start: Nodes, dest: Bytes, names: seq<Bytes>, contents: seq<Bytes>, st: State, name: Bytes, data: Bytes)
    requires Reached(start, dest, names, contents, st)
    ensures OpenEntry(st, dest, name).ok <==> GoodName(dest, name) && PrefixFree(names + [name])
    ensures OpenEntry(st, dest, name).ok ==>
              Reached(start, dest, names + [name], contents + [data], Written(OpenEntry(st, dest, name).state, data))
  {
    hide Resolve, PrefixFree, Holding, OpenEntry, GoodName, Written;
    if OpenEntry(st, dest, name).ok { OpensOnlyNewFiles(start, dest, names, contents, st, name); }
    if GoodName(dest, name) && PrefixFree(names + [name]) {
      ExtractsOneMore(start, dest, names, contents, st, name, data);
      OpensNewFile(start, dest, names, contents, st, name);
      WrittenTarget(OpenEntry(st, dest, name).state, data);
      assert (names + [name])[|names|] == name;
    }
  }

  lemma {:induction false} OtherReached(
    start: Nodes, dest: Bytes, names: seq<Bytes>, contents: seq<Bytes>, st: State, data: Bytes)
    requires Reached(start, dest, names, contents, st) && (data == [] || st.target.Some?)
    ensures Reached(start, dest, names, WithMore(contents, data), Written(st, data))
  {
    hide Resolve, PrefixFree, Holding, Written;
    WrittenTarget(st, data);
    if names == [] {
      WrittenNothing(st);
    } else {
      LastGetsMore(start, Resolve(dest), names, contents, st, data);
    }
  }

  /** From any point of an extraction: it goes on to the end exactly when the members allow it. */
  lemma {:induction false} ExtractsMembers(
    start: Nodes, dest: Bytes, log: seq<Z.Entry>, names: seq<Bytes>, contents: seq<Bytes>, ms: seq<Member>)
    requires Reached(start, dest, names, contents, Extracted(start, dest, log))
    ensures AgreesToAll(TarCallbacks(start, dest), log, ms) <==>
              AllGood(dest, NamesOf(ms)) && PrefixFree(names + NamesOf(ms)) && DataHasFile(names != [], ms)
    ensures AgreesToAll(TarCallbacks(start, dest), log, ms) ==>
              Reached(start, dest, names + NamesOf(ms), Filled(contents, ms), Extracted(start, dest, LoggedAll(log, ms)))
    decreases |ms|
  {
    hide Reached, PrefixFree, OpenEntry, GoodName, AllGood, Written, Agrees, Extracted, TarCallbacks, FileName, IsFile, WithMore;
    if ms == [] {
      assert AllGood(dest, []) by { AllGoodOfNone(dest); }
      assert names + [] == names;
      ReachedIsApart(start, dest, names, contents, Extracted(start, dest, log));
    } else {
      var m := ms[0];
      var st, name := Extracted(start, dest, log), FileName(m.header);
      MemberApplied(start, dest, log, m);
      if IsFile(m) {
        FileReached(start, dest, names, contents, st, name, m.data);
        AllGoodOfMore(dest, name, NamesOf(ms[1..]));
        if PrefixFree(names + NamesOf(ms)) { ExtractableFirst(dest, names, name, NamesOf(ms[1..])); }
        if OpenEntry(st, dest, name).ok {
          ExtractsMembers(start, dest, Logged(log, m), names + [name], contents + [m.data], ms[1..]);
          Associative(names, [name], NamesOf(ms[1..]));
        }
      } else {
        assert NamesOf(ms) == NamesOf(ms[1..]) by { assert [] + NamesOf(ms[1..]) == NamesOf(ms[1..]); }
        ReachedTarget(start, dest, names, contents, st);
        if m.data == [] || st.target.Some? {
          OtherReached(start, dest, names, contents, st, m.data);
          ExtractsMembers(start, dest, Logged(log, m), names, WithMore(contents, m.data), ms[1..]);
        }
      }
    }
  }

  lemma {:induction false} AllGoodOfNone(dest: Bytes)
    ensures AllGood(dest, [])
  {
  }

  lemma {:induction false} ReachedIsApart(start: Nodes, dest: Bytes, names: seq<Bytes>, contents: seq<Bytes>, st: State)
    requires Reached(start, dest, names, contents, st)
    ensures PrefixFree(names)
  {
    hide Holding, PrefixFree, Resolve;
  }

  lemma {:induction false} ReachedTarget(start: Nodes, dest: Bytes, names: seq<Bytes>, contents: seq<Bytes>, st: State)
    requires Reached(start, dest, names, contents, st)
    ensures st.target.Some? <==> names != []
  {
    hide Holding, PrefixFree, Resolve;
  }

  /**
   Extracting any members into an empty directory: the callbacks agree to all of them if and only if
   the names of the files, told by byte 156 of their headers, are good, no file is, or lies inside,
   another, and no other member carries data before the first file. The file system then holds, below the
   destination, exactly those files and directories that lead to them, and elsewhere what it held before.
   Each file holds its own data and, as the code has it, the data of other members that follow it.
   */
  lemma {:induction false} ExtractionIsExact(start: Nodes, dest: Bytes, ms: seq<Member>)
    requires WellFormedFs(start) && EmptyDirectory(start, Resolve(dest))
    ensures AgreesToAll(TarCallbacks(start, dest), [], ms) <==> Extractable(dest, NamesOf(ms)) && DataHasFile(false, ms)
    ensures AgreesToAll(TarCallbacks(start, dest), [], ms) ==>
              Holding(start, Resolve(dest), NamesOf(ms), ContentsOf(ms), Extracted(start, dest, LoggedAll([], ms)).nodes)
  {
    hide Resolve, Holding, GoodName, WellFormedFs, IsFile, FileName;
    EmptyHolds(start, Resolve(dest));
    ExtractsMembers(start, dest, [], [], [], ms);
    assert [] + NamesOf(ms) == NamesOf(ms);
  }

  /** Directories and other members without data change nothing: the files are extracted as if alone. */
  lemma {:induction false} OtherMembersAreSkipped(start: Nodes, dest: Bytes, ms: seq<Member>)
    requires WellFormedFs(start) && EmptyDirectory(start, Resolve(dest)) && OthersAreEmpty(ms)
    ensures AgreesToAll(TarCallbacks(start, dest), [], ms) <==> Extractable(dest, NamesOf(ms))
    ensures |DataOf(ms)| == |NamesOf(ms)|
    ensures Extractable(dest, NamesOf(ms)) ==>
              Holding(start, Resolve(dest), NamesOf(ms), DataOf(ms), Extracted(start, dest, LoggedAll([], ms)).nodes)
  {
    hide Resolve, Holding, Extractable, WellFormedFs, OthersAreEmpty, DataOf, NamesOf;
    ExtractionIsExact(start, dest, ms);
    FilesHoldTheirData([], false, ms);
    assert [] + DataOf(ms) == DataOf(ms);
  }
}
