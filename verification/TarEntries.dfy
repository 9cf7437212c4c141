/** Opening the entries of an archive below a destination, and writing their data, as functions. */
module TarEntries {
  import opened CLib
  import opened SafePath
  import opened FileTree
  import opened FileSystem
  import opened Extraction

  /** The file system, and the file that is open for writing, if any. */
  datatype State = State(nodes: Nodes, target: Option<Path>)
  datatype Opened = Opened(state: State, ok: bool)

  /** The name is acceptable and the combined path fits. */
  predicate NameFits(dest: Bytes, name: Bytes) {
    |dest| + |name| + 2 <= MAX_PATH_SIZE && name != [] && IsSafePath(name, false, false)
  }

  /** `write_append_next_entry`: directories made before a failure stay behind. */
  function OpenEntry(st: State, dest: Bytes, name: Bytes): Opened {
    if !NameFits(dest, name) then Opened(State(st.nodes, None), false)
    else
      var full := FullPath(dest, name);
      var made := MakeDirectories(st.nodes, Resolve(DirPart(full)));
      if !made.ok || Resolve(full) in made.nodes then Opened(State(made.nodes, None), false)
      else
        var created := CreateFile(made.nodes, Resolve(full));
        Opened(State(created.nodes, if created.ok then Some(Resolve(full)) else None), created.ok)
  }

  /** `write_append` when the file system takes everything. */
  function Written(st: State, data: Bytes): State {
    if st.target.None? then st else st.(nodes := AppendToFile(st.nodes, st.target.value, data))
  }

  lemma {:induction false} OpenEntryKeeps(st: State, dest: Bytes, name: Bytes)
    requires WellFormedFs(st.nodes)
    ensures WellFormedFs(OpenEntry(st, dest, name).state.nodes)
  {
    hide Resolve, MakeDirectories, NameFits;
    var full := FullPath(dest, name);
    MakeDirectoriesMakes(st.nodes, Resolve(DirPart(full)));
  }

  lemma {:induction false} WrittenKeeps(st: State, data: Bytes)
    requires WellFormedFs(st.nodes)
    ensures WellFormedFs(Written(st, data).nodes) && Written(st, data).target == st.target
  {
  }

  lemma {:induction false} FullPathIsNulFree(dest: Bytes, name: Bytes)
    requires NulFree(dest) && NulFree(name)
    ensures NulFree(FullPath(dest, name))
  {
  }

  lemma {:induction false} WrittenNothing(st: State)
    ensures Written(st, []) == st
  {
    if st.target.Some? {
      var p := st.target.value;
      if p in st.nodes && st.nodes[p].Regular? {
        assert st.nodes[p].data + [] == st.nodes[p].data;
        assert st.nodes[p := st.nodes[p]] == st.nodes;
      }
    }
  }

  lemma {:induction false} WrittenTwice(st: State, a: Bytes, b: Bytes)
    ensures Written(Written(st, a), b) == Written(st, a + b)
  {
    if st.target.Some? && st.target.value in st.nodes && st.nodes[st.target.value].Regular? {
      Associative(st.nodes[st.target.value].data, a, b);
    }
  }

  lemma {:induction false} WrittenTarget(st: State, data: Bytes)
    ensures Written(st, data).target == st.target
  {
  }
}
