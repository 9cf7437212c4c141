/** The write context of a TAR download, and the parser callbacks that drive it. */
module TarExtraction {
  import opened CLib
  import opened UstarHeader
  import opened SafePath
  import opened FileTree
  import opened FileSystem
  import opened Extraction
  import opened TarEntries
  import opened TreeNames
  import opened Containment
  import opened DeleteWalk
  import Z = ZtarUnpack
  import ChunkIndependence

  predicate ValidDestination(dest: Bytes) {
    NulFree(dest) && dest != [] && dest[0] == SLASH && Fits(dest)
  }

  // ---------------------------------------------------------------------------------------------
  // The destination
  // ---------------------------------------------------------------------------------------------

  /** `is_dir_empty`: "." and ".." do not count. */
  method IsDirEmpty(listing: seq<Node>) returns (empty: bool)
    ensures empty <==> forall i :: 0 <= i < |listing| ==> IsDots(listing[i].name)
  {
    var i := 0;
    while i < |listing|
      invariant i <= |listing|
      invariant forall j :: 0 <= j < i ==> IsDots(listing[j].name)
    {
      if !IsDots(listing[i].name) { return false; }
      i := i + 1;
    }
    empty := true;
  }

  /**
   `is_valid_destination` for an archive: an existing directory must be empty, a missing one is made
   with everything above it. Either way extraction starts with an empty directory.
   */
  method IsValidTarDestination(before: Nodes, destination: Bytes, listing: seq<Node>) returns (nodes: Nodes, ok: bool)
    requires WellFormedFs(before) && NulFree(destination)
    requires IsDirectory(before, Resolve(destination)) ==> Lists(before, Resolve(destination), listing)
    ensures var d := Resolve(destination);
            ok <==> && IsSafePath(destination, true, true) && Fits(destination)
                    && (if d in before then EmptyDirectory(before, d) else MakeDirectories(before, d).ok)
    ensures ok ==> ValidDestination(destination) && EmptyDirectory(nodes, Resolve(destination))
    ensures WellFormedFs(nodes) && Grown(before, nodes, Resolve(destination))
  {
    hide Resolve, MakeDirectories, WellFormedFs, IsSafePath, IsLeaf, Lists;
    nodes, ok := before, false;
    var d := Resolve(destination);
    SafeIsRooted(destination);
    if |destination| == 0 || |destination| >= MAX_PATH_SIZE { return; }
    var safe := IsValidSafePath(destination, true, true);
    if !safe { return; }
    if d !in before {
      MakeDirectoriesMakes(before, d);
      if MakeDirectories(before, d).ok { MadeDirectoryIsEmpty(before, MakeDirectories(before, d).nodes, d); }
      nodes, ok := MkdirRecursive(before, destination, false);
      return;
    }
    if !before[d].Directory? { return; }
    DotsMeanEmpty(before, d, listing);
    ok := IsDirEmpty(listing);
  }

  /** A single-file destination can be set up: a safe new path whose directories are there or can be made. */
  predicate NewFileFits(before: Nodes, destination: Bytes) {
    && IsSafePath(destination, true, false) && Fits(destination)
    && Resolve(destination) !in before && MakeDirectories(before, Resolve(DirPart(destination))).ok
  }

  /** `is_valid_destination` for a single file: nothing may be there; the directories above it are made. */
  method IsValidFileDestination(before: Nodes, destination: Bytes) returns (nodes: Nodes, ok: bool)
    requires WellFormedFs(before) && NulFree(destination)
    ensures ok <==> NewFileFits(before, destination)
    ensures ok ==> ValidDestination(destination) && nodes == MakeDirectories(before, Resolve(DirPart(destination))).nodes
    ensures ok ==> destination[|destination| - 1] != 47 && Resolve(destination) !in before
    ensures WellFormedFs(nodes) && Grown(before, nodes, Resolve(DirPart(destination)))
  {
    hide Resolve, MakeDirectories, WellFormedFs, IsSafePath, LastSlash, DirPart;
    nodes, ok := before, false;
    SafeIsRooted(destination);
    SafePathMeaning(destination, true, false);
    if |destination| == 0 || |destination| >= MAX_PATH_SIZE { return; }
    var safe := IsValidSafePath(destination, true, false);
    if !safe { return; }
    if Resolve(destination) in before { return; }
    LastSlashAfter(destination, 0);
    MakeDirectoriesMakes(before, Resolve(DirPart(destination)));
    nodes, ok := MkdirRecursive(before, destination, true);
  }

  lemma {:induction false} SafeIsRooted(path: Bytes)
    ensures IsSafePath(path, true, true) || IsSafePath(path, true, false) ==> path != [] && path[0] == SLASH
  {
  }

  lemma {:induction false} MadeDirectoryIsEmpty(before: Nodes, made: Nodes, d: Path)
    requires WellFormedFs(before) && d !in before && Grown(before, made, d) && d in made
    ensures EmptyDirectory(made, d)
  {
    hide WellFormedFs;
    forall k | k in made ensures !Under(d, k) {
      if Under(d, k) && k in before { AncestorsAreDirectories(before, k, d); }
    }
  }

  lemma {:induction false} DotsMeanEmpty(fs: Nodes, d: Path, listing: seq<Node>)
    requires Lists(fs, d, listing)
    ensures IsLeaf(fs, d) <==> forall i :: 0 <= i < |listing| ==> IsDots(listing[i].name)
  {
    hide IsDots;
    forall i | 0 <= i < |listing| && !IsDots(listing[i].name) ensures !IsLeaf(fs, d) {
      assert Listed(fs, d, listing[i]);
      assert Under(d, d + [listing[i].name]) by { assert (d + [listing[i].name])[..|d|] == d; }
    }
  }

  // ---------------------------------------------------------------------------------------------
  // The write context
  // ---------------------------------------------------------------------------------------------

  /** A download of one file: it is there, it was not, and nothing else has changed. */
  ghost predicate OnlyFileAdded(start: Nodes, f: Path, nodes: Nodes) {
    && WellFormedFs(nodes) && f != [] && f !in start && f in nodes && nodes[f].Regular?
    && forall k :: k != f ==> (k in nodes <==> k in start) && (k in nodes ==> nodes[k] == start[k])
  }

  /** What an aborted download leaves: nothing at the destination or below it, all else as at the start. */
  ghost predicate Undone(start: Nodes, d: Path, nodes: Nodes) {
    && (forall k :: !AtOrUnder(d, k) ==> (k in nodes <==> k in start) && (k in nodes ==> nodes[k] == start[k]))
    && (forall k :: k in nodes && AtOrUnder(d, k) ==> d == k == [])
  }

  class WriteContext {
    const path: Bytes
    const isTar: bool
    var nodes: Nodes
    var fileOpen: bool
    var openPath: Path
    /** The file system the download started from. */
    ghost const start: Nodes

    ghost function Value(): State
      reads this
    {
      State(nodes, if fileOpen then Some(openPath) else None)
    }

    ghost predicate Valid()
      reads this
    {
      && ValidDestination(path)
      && (isTar ==> Contained(start, path, nodes) && TargetBelow(path, Value()))
      && (!isTar ==> OnlyFileAdded(start, Resolve(path), nodes) && (fileOpen ==> openPath == Resolve(path)))
    }

    /** `write_init` once the destination is found valid: a single file is created at once. */
    constructor (path: Bytes, isTar: bool, nodes: Nodes)
      requires WellFormedFs(nodes) && ValidDestination(path)
      requires isTar ==> EmptyDirectory(nodes, Resolve(path))
      requires !isTar ==> CreateFile(nodes, Resolve(path)).ok
      ensures Valid() && this.path == path && this.isTar == isTar && start == nodes
      ensures Value() == if isTar then State(nodes, None)
                         else State(CreateFile(nodes, Resolve(path)).nodes, Some(Resolve(path)))
    {
      hide Resolve, WellFormedFs, Contained, OnlyFileAdded, EmptyDirectory, CreateFile;
      this.path, this.isTar := path, isTar;
      this.start := nodes;
      if isTar {
        EmptyIsContained(nodes, path);
      } else {
        CreatedIsOnlyFile(nodes, Resolve(path));
      }
      this.nodes := if isTar then nodes else CreateFile(nodes, Resolve(path)).nodes;
      fileOpen := !isTar;
      openPath := Resolve(path);
    }

    /** `is_valid_relative_file`, which also makes the parent directories. */
    method IsValidRelativeFile(relative: Bytes, combined: Bytes) returns (ok: bool)
      requires WellFormedFs(nodes) && ValidDestination(path)
      requires combined == FullPath(path, relative) && NulFree(combined)
      requires relative != [] && Fits(relative) && Fits(combined)
      modifies this`nodes
      ensures if !IsSafePath(relative, false, false) then !ok && nodes == old(nodes)
              else var made := MakeDirectories(old(nodes), Resolve(DirPart(combined)));
                   nodes == made.nodes && ok == (made.ok && Resolve(combined) !in made.nodes)
    {
      hide Resolve, MakeDirectories, IsSafePath, LastSlash, Components;
      var safe := IsValidSafePath(relative, false, false);
      if !safe { return false; }
      SplitAtLastSlash(path, relative);
      assert combined[0] == path[0] == SLASH;
      MakeDirectoriesMakes(nodes, Resolve(DirPart(combined)));
      var made;
      nodes, made := MkdirRecursive(nodes, combined, true);
      if !made { return false; }
      ok := Resolve(combined) !in nodes;
    }

    /** `write_append_next_entry`. Whatever it does stays below the destination, within the walk's reach. */
    method AppendNextEntry(fileName: Bytes) returns (ok: bool)
      requires Valid() && NulFree(fileName)
      modifies this`nodes, this`fileOpen, this`openPath
      ensures Valid()
      ensures !isTar ==> !ok && Value() == old(Value())
      ensures isTar ==> Opened(Value(), ok) == OpenEntry(old(Value()), path, fileName)
    {
      hide Resolve, MakeDirectories, IsSafePath, WellFormedFs, SameElsewhere, AllInBudget, TargetBelow, Under, OnlyFileAdded;
      if !isTar { return false; }
      OpeningStaysContained(start, path, Value(), fileName);
      OpenedBelow(Value(), path, fileName);
      hide Contained;
      fileOpen := false;
      NoTargetBelow(path, Value());
      var fullPathSize := |path| + |fileName| + 2;
      if fullPathSize > MAX_PATH_SIZE { return false; }
      var fullPath := FullPath(path, fileName);
      if |fileName| == 0 { return false; }
      FullPathIsNulFree(path, fileName);
      var valid := IsValidRelativeFile(fileName, fullPath);
      NoTargetBelow(path, Value());
      if !valid { return false; }
      var created := CreateFile(nodes, Resolve(fullPath));
      nodes := created.nodes;
      NoTargetBelow(path, Value());
      if !created.ok { return false; }
      fileOpen := true;
      openPath := Resolve(fullPath);
      ok := true;
    }

    /**
     `write_append`: write until everything is taken. `accepted` is what each `fs_write` returns, as
     far as it may: a failure, nothing, or some of what was offered. What was taken before a failure
     stays in the file.
     */
    method WriteAppend(chunk: Bytes, accepted: nat -> int) returns (ok: bool, totalWritten: nat)
      requires Valid()
      modifies this`nodes
      ensures Valid() && totalWritten <= |chunk|
      ensures Value() == Written(old(Value()), chunk[..totalWritten])
      ensures ok <==> fileOpen && totalWritten == |chunk|
      ensures fileOpen && (forall k: nat :: accepted(k) > 0) ==> ok
    {
      hide Contained, TargetBelow, OnlyFileAdded, AppendToFile, ValidDestination;
      totalWritten := 0;
      WrittenNothing(Value());
      assert chunk[..0] == [];
      if !fileOpen { return false, 0; }
      var calls := 0;
      while totalWritten < |chunk|
        invariant Valid() && fileOpen && totalWritten <= |chunk|
        invariant Value() == Written(old(Value()), chunk[..totalWritten])
        decreases |chunk| - totalWritten
      {
        var res := accepted(calls);
        calls := calls + 1;
        if res < 0 { return false, totalWritten; }
        if res == 0 { return false, totalWritten; }
        var n := Min(res, |chunk| - totalWritten);
        var portion := chunk[totalWritten..totalWritten + n];
        if isTar {
          WritingStaysContained(start, path, Value(), portion);
        } else {
          WritingKeepsOnlyFile(start, Resolve(path), nodes, portion);
        }
        WrittenTwice(old(Value()), chunk[..totalWritten], portion);
        assert chunk[..totalWritten] + portion == chunk[..totalWritten + n];
        nodes := AppendToFile(nodes, openPath, portion);
        totalWritten := totalWritten + n;
      }
      ok := true;
    }

    /**
     `write_abort`, at any point of a download. For an archive every unlink of the delete walk is of
     a file or an already empty directory, and the walk reaches everything. In the end nothing is
     left at the destination or below it, and everything else is as at the start.
     */
    method Abort(listing: seq<Node>)
      requires Valid()
      requires isTar ==> ValidNodes(listing) && DistinctNodes(listing) && Lists(nodes, Resolve(path), listing)
      modifies this`nodes, this`fileOpen
      ensures !fileOpen
      ensures isTar ==> AllUnlinked(old(nodes), WalkTree(path, listing).visits)
      ensures isTar ==> !WalkTree(path, listing).tooLong
      ensures Undone(start, Resolve(path), nodes)
      ensures !isTar ==> nodes == start
    {
      hide Resolve, Contained, WellFormedFs, WalkTree, ValidNodes, DistinctNodes, Lists, AllUnlinked, Unlink, Fold,
        TargetBelow, OnlyFileAdded, Undone;
      fileOpen := false;
      if isTar {
        ContainedIsWalkable(start, path, nodes, listing);
        var walker := new Walker<Nodes>(path, DeleteEntry, nodes);
        var err := walker.WalkRecursive(listing, path);
        UnlinkingRoot(start, path, nodes, walker.userData);
        nodes := walker.userData;
      } else {
        UnlinkingFile(start, Resolve(path), nodes);
      }
      nodes := Unlink(nodes, Resolve(path)).nodes;
    }
  }

  /** The destination is one `write_init` accepts. */
  ghost predicate Acceptable(before: Nodes, destination: Bytes, isTar: bool) {
    if isTar then
      && IsSafePath(destination, true, true) && Fits(destination)
      && (if Resolve(destination) in before then EmptyDirectory(before, Resolve(destination))
          else MakeDirectories(before, Resolve(destination)).ok)
    else
      && NewFileFits(before, destination)
      && CreateFile(MakeDirectories(before, Resolve(DirPart(destination))).nodes, Resolve(destination)).ok
  }

  /**
   `write_init`: validates the destination, makes missing directories, and opens a single file at once.
   A context comes back exactly when all of that succeeds.
   */
  method WriteInit(before: Nodes, destination: Bytes, isTar: bool, listing: seq<Node>)
    returns (nodes: Nodes, context: WriteContext?)
    requires WellFormedFs(before) && NulFree(destination)
    requires isTar && IsDirectory(before, Resolve(destination)) ==> Lists(before, Resolve(destination), listing)
    ensures context != null <==> Acceptable(before, destination, isTar)
    ensures context != null ==>
              && fresh(context) && context.Valid() && context.path == destination && context.isTar == isTar
              && context.nodes == nodes && context.fileOpen == !isTar
    ensures context != null && isTar ==> context.start == nodes && EmptyDirectory(nodes, Resolve(destination))
    ensures context == null ==> WellFormedFs(nodes) && forall k :: k in before ==> k in nodes && nodes[k] == before[k]
  {
    hide Resolve, MakeDirectories, IsSafePath, WellFormedFs, Lists, EmptyDirectory, DirPart, Contained, OnlyFileAdded, CreateFile;
    context := null;
    var valid;
    if isTar {
      nodes, valid := IsValidTarDestination(before, destination, listing);
    } else {
      nodes, valid := IsValidFileDestination(before, destination);
    }
    if !valid { return; }
    if !isTar && !CreateFile(nodes, Resolve(destination)).ok { return; }
    context := new WriteContext(destination, isTar, nodes);
    nodes := context.nodes;
  }

  lemma {:induction false} NoTargetBelow(dest: Bytes, st: State)
    requires st.target == None
    ensures TargetBelow(dest, st)
  {
  }

  lemma {:induction false} CreatedIsOnlyFile(start: Nodes, f: Path)
    requires WellFormedFs(start) && CreateFile(start, f).ok
    ensures OnlyFileAdded(start, f, CreateFile(start, f).nodes)
  {
  }

  lemma {:induction false} WritingKeepsOnlyFile(start: Nodes, f: Path, nodes: Nodes, data: Bytes)
    requires OnlyFileAdded(start, f, nodes)
    ensures OnlyFileAdded(start, f, AppendToFile(nodes, f, data))
  {
  }

  // ---------------------------------------------------------------------------------------------
  // Abort
  // ---------------------------------------------------------------------------------------------

  /** What is in budget fits the walk's buffer, directory by directory. */
  lemma {:induction false} ListedFits(dest: Bytes, fs: Nodes, rel: Path, nodes: seq<Node>)
    requires dest != [] && AllInBudget(dest, fs) && AllListed(fs, Resolve(dest) + rel, nodes)
    ensures AllFit(Descend(dest, rel), nodes)
    decreases nodes
  {
    hide Resolve, IsDots, Fits, AllInBudget, AllListed;
    if nodes != [] {
      RestIsListed(fs, Resolve(dest) + rel, nodes);
      ListedFits(dest, fs, rel, nodes[1..]);
      if !IsDots(nodes[0].name) {
        var node := nodes[0];
        FirstIsListed(fs, Resolve(dest) + rel, nodes);
        EntryFits(dest, fs, rel, node);
        if node.DirNode? {
          ChildrenAreListed(fs, Resolve(dest) + rel, node);
          Associative(Resolve(dest), rel, [node.name]);
          ListedFits(dest, fs, rel + [node.name], node.children);
        }
      }
    }
  }

  lemma {:induction false} EntryFits(dest: Bytes, fs: Nodes, rel: Path, node: Node)
    requires dest != [] && AllInBudget(dest, fs) && Listed(fs, Resolve(dest) + rel, node)
    ensures Join(Descend(dest, rel), node.name) == Descend(dest, rel + [node.name])
    ensures Fits(Join(Descend(dest, rel), node.name))
  {
    hide Resolve, Descend, Slashed, IsRelative;
    var d, deeper := Resolve(dest), rel + [node.name];
    Associative(d, rel, [node.name]);
    assert (d + deeper)[..|d|] == d && (d + deeper)[|d|..] == deeper;
    assert InBudget(dest, deeper);
    DescendOneMore(dest, rel, node.name);
    DescendIsJoin(dest, deeper);
  }

  lemma {:induction false} DescendOneMore(base: Bytes, p: Path, c: Bytes)
    requires base != []
    ensures Descend(base, p + [c]) == Join(Descend(base, p), c)
    decreases |p|
  {
    hide Join;
    if p == [] {
      assert [] + [c] == [c] && [c][1..] == [];
      assert Descend(Join(base, c), []) == Join(base, c);
    } else {
      assert (p + [c])[1..] == p[1..] + [c];
      DescendOneMore(Join(base, p[0]), p[1..], c);
    }
  }

  /** The delete walk over a partial extraction reaches everything below the destination. */
  lemma {:induction false} ContainedIsWalkable(start: Nodes, dest: Bytes, nodes: Nodes, listing: seq<Node>)
    requires ValidDestination(dest) && Contained(start, dest, nodes)
    requires ValidNodes(listing) && DistinctNodes(listing) && Lists(nodes, Resolve(dest), listing)
    ensures AllUnlinked(nodes, WalkTree(dest, listing).visits) && !WalkTree(dest, listing).tooLong
    ensures Fold(DeleteEntry, nodes, WalkTree(dest, listing).visits)
         == map k | k in nodes && !Under(Resolve(dest), k) :: nodes[k]
  {
    hide Resolve, AllInBudget, WellFormedFs, AllFit, AllUnlinked, WalkTree, ValidNodes, DistinctNodes, Fold;
    assert Resolve(dest) + [] == Resolve(dest);
    assert AllListed(nodes, Resolve(dest), listing);
    ListedFits(dest, nodes, [], listing);
    assert Descend(dest, []) == dest;
    WalkEmptiesDirectory(nodes, dest, listing);
  }

  /** With everything below it gone, the destination itself can be unlinked. */
  lemma {:induction false} UnlinkingRoot(start: Nodes, dest: Bytes, nodes: Nodes, emptied: Nodes)
    requires Contained(start, dest, nodes)
    requires emptied == map k | k in nodes && !Under(Resolve(dest), k) :: nodes[k]
    ensures Undone(start, Resolve(dest), Unlink(emptied, Resolve(dest)).nodes)
  {
    hide Resolve, AllInBudget, WellFormedFs, Under, AtOrUnder;
    var d := Resolve(dest);
    forall k ensures AtOrUnder(d, k) <==> d == k || Under(d, k) {
      AtOrUnderMeaning(d, k);
    }
    UnderItself(d);
    assert IsLeaf(emptied, d);
  }

  lemma {:induction false} UnderItself(d: Path)
    ensures !Under(d, d)
  {
  }

  lemma {:induction false} UnlinkingFile(start: Nodes, f: Path, nodes: Nodes)
    requires OnlyFileAdded(start, f, nodes)
    ensures Unlink(nodes, f).nodes == start && Undone(start, f, start)
  {
    hide WellFormedFs;
    forall k | k in nodes ensures !Under(f, k) {
      if Under(f, k) { AncestorsAreDirectories(nodes, k, f); }
    }
    forall k | k in start ensures !AtOrUnder(f, k) {
      AtOrUnderMeaning(f, k);
    }
    assert nodes - {f} == start;
  }

  // ---------------------------------------------------------------------------------------------
  // The parser's callbacks
  // ---------------------------------------------------------------------------------------------

  /** One reported file applied to the file system: entries that are not regular files open nothing. */
  function Applied(st: State, dest: Bytes, e: Z.Entry): State {
    Written(if TypeOf(e.header) == RegularFile then OpenEntry(st, dest, FileName(e.header)).state else st, e.data)
  }

  /** The state after everything the callbacks have been told. */
  function Extracted(start: Nodes, dest: Bytes, log: seq<Z.Entry>): State {
    if log == [] then State(start, None)
    else Applied(Extracted(start, dest, log[..|log| - 1]), dest, log[|log| - 1])
  }

  /** `tar_on_file_start`, `tar_on_file_data` and `tar_on_file_end`. */
  function TarCallbacks(start: Nodes, dest: Bytes): Z.Callbacks {
    Z.Callbacks(
      (log: seq<Z.Entry>, header: Block) =>
        TypeOf(header) != RegularFile || OpenEntry(Extracted(start, dest, log), dest, FileName(header)).ok,
      (log: seq<Z.Entry>, data: Bytes) => Extracted(start, dest, log).target.Some?,
      (log: seq<Z.Entry>) => true)
  }

  /** More data for the current file is more data written to it. */
  lemma {:induction false} ExtractedData(start: Nodes, dest: Bytes, log: seq<Z.Entry>, data: Bytes)
    requires log != []
    ensures Extracted(start, dest, Z.Appended(log, data)) == Written(Extracted(start, dest, log), data)
    ensures Extracted(start, dest, Z.Appended(log, data)).target == Extracted(start, dest, log).target
  {
    hide OpenEntry, TypeOf, FileName, Written;
    var e := log[|log| - 1];
    var longer := Z.Appended(log, data);
    assert longer[..|log| - 1] == log[..|log| - 1];
    var st := Extracted(start, dest, log[..|log| - 1]);
    var current := if TypeOf(e.header) == RegularFile then OpenEntry(st, dest, FileName(e.header)).state else st;
    WrittenTwice(current, e.data, data);
    WrittenTarget(current, e.data);
    WrittenTarget(current, e.data + data);
  }

  /** The extraction callbacks do not care how data is cut. */
  lemma {:induction false} TarCallbacksAreAdditive(start: Nodes, dest: Bytes)
    ensures ChunkIndependence.Additive(TarCallbacks(start, dest))
  {
    var cb := TarCallbacks(start, dest);
    forall log: seq<Z.Entry>, a: Bytes, b: Bytes | log != [] && a != [] && b != []
      ensures cb.onData(log, a + b) <==> cb.onData(log, a) && cb.onData(Z.Appended(log, a), b)
    {
      ExtractedData(start, dest, log, a);
    }
  }

  /** Ending a file changes nothing on disk. */
  lemma {:induction false} ExtractedEnded(start: Nodes, dest: Bytes, log: seq<Z.Entry>)
    ensures Extracted(start, dest, Z.Ended(log)) == Extracted(start, dest, log)
  {
    hide OpenEntry, TypeOf, FileName, Written;
    if log != [] {
      assert Z.Ended(log)[..|log| - 1] == log[..|log| - 1];
    }
  }

  /** Starting a file opens its entry, unless it is no regular file. */
  lemma {:induction false} ExtractedStarted(start: Nodes, dest: Bytes, log: seq<Z.Entry>, header: Block)
    ensures Extracted(start, dest, Z.Started(log, header))
         == if TypeOf(header) == RegularFile then OpenEntry(Extracted(start, dest, log), dest, FileName(header)).state
            else Extracted(start, dest, log)
  {
    hide OpenEntry, TypeOf, FileName;
    var st := Extracted(start, dest, log);
    assert Z.Started(log, header)[..|log|] == log;
    WrittenNothing(if TypeOf(header) == RegularFile then OpenEntry(st, dest, FileName(header)).state else st);
  }

  /**
   The callbacks as the parser calls them, on a write context. They answer as `TarCallbacks` does,
   and what is on disk is what the log so far extracts to.
   */
  class TarSink {
    const context: WriteContext
    ghost var log: seq<Z.Entry>

    ghost predicate Valid()
      reads this, context
    {
      context.Valid() && context.isTar && context.Value() == Extracted(context.start, context.path, log)
    }

    constructor (context: WriteContext)
      requires context.Valid() && context.isTar && context.Value() == State(context.start, None)
      ensures Valid() && log == [] && this.context == context
    {
      this.context := context;
      log := [];
    }

    /** `tar_on_file_start`. */
    method OnFileStart(header: Block) returns (ok: bool)
      requires Valid()
      modifies this, context`nodes, context`fileOpen, context`openPath
      ensures Valid() && log == Z.Started(old(log), header)
      ensures ok <==> TarCallbacks(context.start, context.path).onStart(old(log), header)
    {
      hide Extracted, OpenEntry, FileName, TypeOf, Contained, TargetBelow, OnlyFileAdded;
      ExtractedStarted(context.start, context.path, log, header);
      log := Z.Started(log, header);
      var fileName := FileName(header);
      if TypeOf(header) != RegularFile { return true; }
      ok := context.AppendNextEntry(fileName);
    }

    /** `tar_on_file_data`. Only a refusal by the file system makes it fail while a file is open. */
    method OnFileData(chunk: Bytes, accepted: nat -> int) returns (ok: bool)
      requires Valid() && log != []
      modifies this, context`nodes
      ensures context.Valid()
      ensures ok ==> Valid() && log == Z.Appended(old(log), chunk)
      ensures ok ==> TarCallbacks(context.start, context.path).onData(old(log), chunk)
      ensures (forall k: nat :: accepted(k) > 0) ==>
                (ok <==> TarCallbacks(context.start, context.path).onData(old(log), chunk))
    {
      hide Extracted, Written, Contained, TargetBelow, OnlyFileAdded;
      ExtractedData(context.start, context.path, log, chunk);
      var total;
      ok, total := context.WriteAppend(chunk, accepted);
      assert chunk[..|chunk|] == chunk;
      log := Z.Appended(log, chunk);
    }

    /** `tar_on_file_end`. */
    method OnFileEnd() returns (ok: bool)
      requires Valid()
      modifies this`log
      ensures Valid() && log == Z.Ended(old(log))
      ensures ok <==> TarCallbacks(context.start, context.path).onEnd(old(log))
    {
      ExtractedEnded(context.start, context.path, log);
      log := Z.Ended(log);
      ok := true;
    }
  }
}
