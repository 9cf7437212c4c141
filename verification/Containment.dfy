/** What an extraction can touch, however far it gets: short, clean paths below the destination. */
module Containment {
  import opened CLib
  import opened SafePath
  import opened FileTree
  import opened FileSystem
  import opened TreeNames
  import opened Extraction
  import opened TarEntries

  /** Written out below `dest`, the relative path still fits the walk's path buffer. */
  predicate InBudget(dest: Bytes, p: Path) {
    IsRelative(p) && |dest| + 1 + |Slashed(p)| < MAX_PATH_SIZE
  }

  ghost predicate AllInBudget(dest: Bytes, nodes: Nodes) {
    forall k :: k in nodes && Under(Resolve(dest), k) ==> InBudget(dest, k[|Resolve(dest)|..])
  }

  /** A partial extraction: nothing outside the destination has changed, and all paths in it are short. */
  ghost predicate Contained(start: Nodes, dest: Bytes, nodes: Nodes) {
    && WellFormedFs(nodes) && IsDirectory(nodes, Resolve(dest))
    && SameElsewhere(start, Resolve(dest), nodes) && AllInBudget(dest, nodes)
  }

  lemma {:induction false} EmptyIsContained(start: Nodes, dest: Bytes)
    requires WellFormedFs(start) && EmptyDirectory(start, Resolve(dest))
    ensures Contained(start, dest, start)
  {
  }

  // ---------------------------------------------------------------------------------------------
  // Names are no shorter than the paths they denote
  // ---------------------------------------------------------------------------------------------

  predicate CleanPart(c: Bytes) { SlashFree(c) && NulFree(c) && c != DOT_DOT }

  lemma {:induction false} ComponentsAreClean(name: Bytes)
    requires NulFree(name) && DOT_DOT !in Components(name)
    ensures forall i :: 0 <= i < |Components(name)| ==> CleanPart(Components(name)[i])
  {
    var i := FirstSlash(name, 0);
    var parts := Components(name);
    if i < |name| {
      assert parts == [name[..i]] + Components(name[i + 1..]);
      assert DOT_DOT !in Components(name[i + 1..]) by {
        assert forall j :: 0 <= j < |parts[1..]| ==> parts[1..][j] == parts[j + 1];
      }
      ComponentsAreClean(name[i + 1..]);
      assert name[..i] != DOT_DOT by { assert name[..i] in parts; }
    } else {
      assert name in parts;
    }
  }

  lemma {:induction false} KeptAreNames(parts: seq<Bytes>)
    requires forall i :: 0 <= i < |parts| ==> CleanPart(parts[i])
    ensures forall i :: 0 <= i < |WithoutSkipped(parts)| ==> IsName(WithoutSkipped(parts)[i])
  {
    if parts != [] {
      KeptAreNames(parts[1..]);
      assert CleanPart(parts[0]);
    }
  }

  lemma {:induction false} ResolveIsShort(name: Bytes)
    ensures Resolve(name) != [] ==> |Slashed(Resolve(name))| <= |name|
  {
    var i := FirstSlash(name, 0);
    if i == |name| {
      ResolveOfComponent(name);
    } else {
      var rest := name[i + 1..];
      ResolveIsShort(rest);
      assert Components(name)[1..] == Components(rest);
      assert Resolve(name) == KeptComponent(name[..i]) + Resolve(rest);
      if !IsSkipped(name[..i]) {
        assert Resolve(name)[1..] == Resolve(rest);
      } else {
        assert Resolve(name) == Resolve(rest);
      }
    }
  }

  lemma {:induction false} PrefixIsShorter(p: Path, k: Path)
    requires k != [] && AtOrUnder(k, p)
    ensures |Slashed(k)| <= |Slashed(p)|
    decreases |p|
  {
    assert k[0] == p[0];
    if |k| > 1 {
      assert k[1..] == p[1..][..|k| - 1];
      PrefixIsShorter(p[1..], k[1..]);
    } else {
      assert k == [p[0]];
    }
  }

  /** Everything on the way to an acceptable name is in budget. */
  lemma {:induction false} NameIsInBudget(dest: Bytes, name: Bytes, k: Path)
    requires NameFits(dest, name) && NulFree(name) && k != [] && AtOrUnder(k, Resolve(name))
    ensures InBudget(dest, k)
  {
    hide Components, Slashed, WithoutSkipped, CleanPart, IsName;
    ComponentsAreClean(name);
    KeptAreNames(Components(name));
    ResolveIsShort(name);
    PrefixIsShorter(Resolve(name), k);
    assert forall i :: 0 <= i < |k| ==> k[i] == Resolve(name)[i];
  }

  // ---------------------------------------------------------------------------------------------
  // Every step stays contained
  // ---------------------------------------------------------------------------------------------

  /** Whatever is new lies below the destination, on the way to `f`. */
  ghost predicate NewOnTheWay(nodes: Nodes, after: Nodes, d: Path, f: Path) {
    && (forall k :: k in nodes ==> k in after && after[k] == nodes[k])
    && (forall k :: k in after && k !in nodes ==> Under(d, k) && AtOrUnder(k, f))
  }

  lemma {:induction false} StepStaysContained(start: Nodes, dest: Bytes, name: Bytes, nodes: Nodes, after: Nodes)
    requires Contained(start, dest, nodes) && NameFits(dest, name) && NulFree(name)
    requires WellFormedFs(after) && NewOnTheWay(nodes, after, Resolve(dest), Resolve(dest) + Resolve(name))
    ensures Contained(start, dest, after)
  {
    hide Resolve, NameFits, InBudget, WellFormedFs;
    var d := Resolve(dest);
    forall k | k in after && Under(d, k) ensures InBudget(dest, k[|d|..]) {
      if k !in nodes {
        assert k[|d|..] == (d + Resolve(name))[..|k|][|d|..] == Resolve(name)[..|k| - |d|];
        NameIsInBudget(dest, name, k[|d|..]);
      }
    }
  }

  lemma {:induction false} NewIsBelow(nodes: Nodes, d: Path, f: Path, k: Path)
    requires WellFormedFs(nodes) && d in nodes && AtOrUnder(d, f) && AtOrUnder(k, f) && k !in nodes
    ensures Under(d, k)
  {
    hide WellFormedFs;
    Comparable(k, d, f);
    AtOrUnderMeaning(k, d);
    if Under(k, d) {
      AncestorsAreDirectories(nodes, d, k);
    }
  }

  lemma {:induction false} AtOrUnderTransitive(a: Path, b: Path, c: Path)
    requires AtOrUnder(a, b) && AtOrUnder(b, c)
    ensures AtOrUnder(a, c)
  {
    assert c[..|a|] == c[..|b|][..|a|];
  }

  /** What opening an entry leaves behind, whether or not it succeeds. */
  lemma {:induction false} OpeningIsOnTheWay(st: State, dest: Bytes, name: Bytes)
    requires WellFormedFs(st.nodes) && Resolve(dest) in st.nodes && NameFits(dest, name)
    ensures NewOnTheWay(st.nodes, OpenEntry(st, dest, name).state.nodes, Resolve(dest), Resolve(dest) + Resolve(name))
  {
    hide Resolve, MakeDirectories, NameFits, LastSlash, WellFormedFs, KeptComponent, AtOrUnder, Under;
    var full := FullPath(dest, name);
    var d, q, f := Resolve(dest), Resolve(DirPart(full)), Resolve(full);
    SplitAtLastSlash(dest, name);
    DirPartIsBelow(dest, name);
    AtOrUnderTransitive(d, q, f);
    MakeDirectoriesMakes(st.nodes, q);
    var after := OpenEntry(st, dest, name).state.nodes;
    forall k | k in after && k !in st.nodes ensures Under(d, k) && AtOrUnder(k, f) {
      if k == f {
        AtOrUnderMeaning(f, f);
      } else {
        assert AtOrUnder(k, q);
        AtOrUnderTransitive(k, q, f);
      }
      NewIsBelow(st.nodes, d, f, k);
    }
  }

  /** Opening an entry, whether or not it succeeds. */
  lemma {:induction false} OpeningStaysContained(start: Nodes, dest: Bytes, st: State, name: Bytes)
    requires Contained(start, dest, st.nodes) && NulFree(name)
    ensures Contained(start, dest, OpenEntry(st, dest, name).state.nodes)
  {
    hide Resolve, MakeDirectories, NameFits, DirPart, WellFormedFs, SameElsewhere, AllInBudget;
    OpenEntryKeeps(st, dest, name);
    if NameFits(dest, name) {
      OpeningIsOnTheWay(st, dest, name);
      StepStaysContained(start, dest, name, st.nodes, OpenEntry(st, dest, name).state.nodes);
    }
  }

  /** The open file, if any, lies below the destination. */
  predicate TargetBelow(dest: Bytes, st: State) {
    st.target.Some? ==> Under(Resolve(dest), st.target.value)
  }

  lemma {:induction false} OpenedBelow(st: State, dest: Bytes, name: Bytes)
    requires WellFormedFs(st.nodes) && Resolve(dest) in st.nodes
    ensures TargetBelow(dest, OpenEntry(st, dest, name).state)
  {
    hide Resolve, MakeDirectories, NameFits, LastSlash, WellFormedFs, KeptComponent;
    var full := FullPath(dest, name);
    SplitAtLastSlash(dest, name);
    if OpenEntry(st, dest, name).ok {
      MakeDirectoriesMakes(st.nodes, Resolve(DirPart(full)));
      AtOrUnderMeaning(Resolve(dest), Resolve(full));
    }
  }

  /** Writing any amount of data to the open file. */
  lemma {:induction false} WritingStaysContained(start: Nodes, dest: Bytes, st: State, data: Bytes)
    requires Contained(start, dest, st.nodes) && TargetBelow(dest, st)
    ensures Contained(start, dest, Written(st, data).nodes) && TargetBelow(dest, Written(st, data))
  {
    hide Resolve, InBudget, WellFormedFs, Written, AtOrUnder, Under;
    WrittenKeeps(st, data);
    WritesOnlyTarget(st, data);
  }

  lemma {:induction false} WritesOnlyTarget(st: State, data: Bytes)
    ensures var after := Written(st, data).nodes;
            && (forall k :: k in after <==> k in st.nodes)
            && (forall k :: k in after ==> (after[k].Directory? <==> st.nodes[k].Directory?))
            && (forall k :: k in after && st.target != Some(k) ==> after[k] == st.nodes[k])
  {
  }
}
