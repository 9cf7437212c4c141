/** Path checks: no parent-directory component may slip through. */
module SafePath {
  import opened CLib

  const DOT_DOT: Bytes := [DOT, DOT]

  /** Index of the first slash at or after `from`, or the length when there is none. */
  function FirstSlash(path: Bytes, from: nat): (i: nat)
    requires from <= |path|
    ensures from <= i <= |path|
    ensures i < |path| ==> path[i] == SLASH
    ensures forall j :: from <= j < i ==> path[j] != SLASH
    decreases |path| - from
  {
    if from == |path| || path[from] == SLASH then from else FirstSlash(path, from + 1)
  }

  /** The parts between slashes. */
  function Components(path: Bytes): (parts: seq<Bytes>)
    ensures parts != []
  {
    var i := FirstSlash(path, 0);
    if i == |path| then [path] else [path[..i]] + Components(path[i + 1..])
  }

  /** Two dots (byte 46) bounded by slashes (byte 47) or the ends of the string. */
  predicate StandaloneAt(path: Bytes, p: int) {
    && 0 <= p <= |path| - 2 && path[p] == 46 && path[p + 1] == 46
    && (p == 0 || path[p - 1] == 47)
    && (p + 2 == |path| || path[p + 2] == 47)
  }

  lemma {:induction false} StandaloneIsComponent(path: Bytes, p: int)
    requires StandaloneAt(path, p)
    ensures DOT_DOT in Components(path)
  {
    var i := FirstSlash(path, 0);
    if p == 0 {
      assert i == 2;
      assert path[..i] == DOT_DOT && path[..|path|] == path;
      assert Components(path)[0] == DOT_DOT;
    } else {
      StandaloneIsComponent(path[i + 1..], p - i - 1);
      assert Components(path) == [path[..i]] + Components(path[i + 1..]);
    }
  }

  lemma {:induction false} ComponentIsStandalone(path: Bytes) returns (p: int)
    requires DOT_DOT in Components(path)
    ensures StandaloneAt(path, p)
  {
    var i := FirstSlash(path, 0);
    if i == |path| {
      p := 0;
    } else if path[..i] == DOT_DOT {
      p := 0;
      assert path[0] == path[..i][0] && path[1] == path[..i][1];
    } else {
      assert Components(path) == [path[..i]] + Components(path[i + 1..]);
      var q := ComponentIsStandalone(path[i + 1..]);
      p := q + i + 1;
    }
  }

  /** The rule the check stands for. */
  predicate IsSafePath(path: Bytes, expectRoot: bool, expectDir: bool) {
    && path != []
    && (path[0] == SLASH <==> expectRoot)
    && DOT_DOT !in Components(path)
    && (expectDir || path[|path| - 1] != SLASH)
  }

  /** The rule byte by byte. */
  lemma {:induction false} SafePathMeaning(path: Bytes, expectRoot: bool, expectDir: bool)
    ensures IsSafePath(path, expectRoot, expectDir) <==>
              && |path| > 0
              && (if expectRoot then path[0] == 47 else path[0] != 47)
              && (forall p :: !StandaloneAt(path, p))
              && (expectDir || path[|path| - 1] != 47)
  {
    hide StandaloneAt, Components;
    if DOT_DOT in Components(path) { var p := ComponentIsStandalone(path); }
    forall p | StandaloneAt(path, p) ensures DOT_DOT in Components(path) { StandaloneIsComponent(path, p); }
  }

  /** `strstr(path + from, "..")`, with the length of the path for a null result. */
  method FindDotDot(path: Bytes, from: nat) returns (at: nat)
    requires from <= |path|
    ensures from <= at <= |path|
    ensures at < |path| ==> at + 2 <= |path| && path[at] == DOT && path[at + 1] == DOT
    ensures forall q :: from <= q < at ==> !(q + 2 <= |path| && path[q] == DOT && path[q + 1] == DOT)
  {
    at := from;
    while at < |path|
      invariant from <= at <= |path|
      invariant forall q :: from <= q < at ==> !(q + 2 <= |path| && path[q] == DOT && path[q + 1] == DOT)
    {
      if at + 2 <= |path| && path[at] == DOT && path[at + 1] == DOT { return; }
      at := at + 1;
    }
  }

  /**
   `is_valid_safe_path`. The scan skips two characters past every ".." it rejects; that cannot
   overshoot a standalone one, which must follow a slash.
   */
  method IsValidSafePath(path: Bytes, expectRoot: bool, expectDir: bool) returns (ok: bool)
    ensures ok <==> IsSafePath(path, expectRoot, expectDir)
  {
    if path == [] { return false; }
    if expectRoot && path[0] != SLASH { return false; }
    if !expectRoot && path[0] == SLASH { return false; }
    var curr := FindDotDot(path, 0);
    while curr < |path|
      invariant curr <= |path|
      invariant curr < |path| ==> curr + 2 <= |path| && path[curr] == DOT && path[curr + 1] == DOT
      invariant forall p :: 0 <= p < curr ==> !StandaloneAt(path, p)
      decreases |path| - curr
    {
      var startBound := curr == 0 || path[curr - 1] == SLASH;
      var endBound := curr + 2 == |path| || path[curr + 2] == SLASH;
      if startBound && endBound {
        StandaloneIsComponent(path, curr);
        return false;
      }
      assert !StandaloneAt(path, curr) && !StandaloneAt(path, curr + 1);
      var next := FindDotDot(path, curr + 2);
      assert forall p :: curr + 2 <= p < next ==> !StandaloneAt(path, p);
      curr := next;
    }
    assert DOT_DOT !in Components(path) by {
      if DOT_DOT in Components(path) {
        var p := ComponentIsStandalone(path);
      }
    }
    ok := expectDir || path[|path| - 1] != SLASH;
  }
}
