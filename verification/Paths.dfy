/** Slash-separated paths: `filepath.Clean`, `safeRelative` and `ensureContained`
    (backend/internal/operations/worlds.go). */
module Paths {
  import opened Text

  type Path = seq<string>

  /** A name a directory can hold. */
  predicate ValidName(name: string) {
    name != "" && name != "." && name != ".." && '/' !in name
  }

  /** A part that `filepath.Clean` keeps as it is. */
  predicate Plain(part: string) {
    part != "" && part != "." && part != ".."
  }

  predicate AllPlain(parts: Path) {
    forall i | 0 <= i < |parts| :: Plain(parts[i])
  }

  predicate ValidPath(path: Path) {
    path != [] && forall name | name in path :: ValidName(name)
  }

  /** One step of `filepath.Clean`: `stack` holds the cleaned parts so far. */
  function Push(stack: Path, part: string, rooted: bool): Path {
    if part == "" || part == "." then stack
    else if part == ".." then
      if stack != [] && stack[|stack| - 1] != ".." then stack[..|stack| - 1]
      else if rooted then stack
      else stack + [".."]
    else stack + [part]
  }

  function CleanParts(parts: seq<string>, rooted: bool): Path {
    if parts == [] then [] else Push(CleanParts(parts[..|parts| - 1], rooted), parts[|parts| - 1], rooted)
  }

  /** The components of `filepath.Clean(value)` for a relative value; empty stands for ".". */
  function Clean(value: string): Path {
    CleanParts(Split(value, '/'), false)
  }

  predicate SafeRelative(value: string) {
    && value != "" && value[0] != '/'
    && var cleaned := Clean(value);
       cleaned != [] && cleaned[0] != ".."
  }

  /** `filepath.Join(root, value)` for a clean absolute root. */
  function JoinUnder(root: Path, value: string): Path {
    CleanParts(root + Split(value, '/'), true)
  }

  /** `filepath.Rel(root, target)` for clean absolute paths: climb out of `root` to the
      common ancestor, then descend. */
  function Rel(root: Path, target: Path): Path {
    if root == [] then target
    else if target != [] && root[0] == target[0] then Rel(root[1..], target[1..])
    else seq(|root|, _ => "..") + target
  }

  /** Whether `ensureContained(root, target)` accepts. */
  predicate Contained(root: Path, target: Path) {
    var relative := Rel(root, target);
    relative == [] || relative[0] != ".."
  }

  /** The check accepts exactly the targets that lie at or below the root. */
  lemma {:induction false} ContainedIsBelow(root: Path, target: Path)
    requires AllPlain(target)
    ensures Contained(root, target) <==> root <= target
  {
    if root == [] {
      assert target == [] || Plain(target[0]);
    } else if target != [] && root[0] == target[0] {
      ContainedIsBelow(root[1..], target[1..]);
      assert root == [root[0]] + root[1..] && target == [target[0]] + target[1..];
    }
  }

  // A cleaned relative path is a run of ".." followed by real names only.
  predicate Climbs(parts: Path, n: nat) {
    && n <= |parts|
    && (forall i | 0 <= i < n :: parts[i] == "..")
    && (forall i | n <= i < |parts| :: parts[i] != ".." && parts[i] != "" && parts[i] != ".")
  }

  lemma {:induction false} CleanShape(parts: seq<string>) returns (n: nat)
    ensures Climbs(CleanParts(parts, false), n)
  {
    if parts == [] {
      n := 0;
    } else {
      n := CleanShape(parts[..|parts| - 1]);
      var stack := CleanParts(parts[..|parts| - 1], false);
      var part := parts[|parts| - 1];
      if part == ".." && n == |stack| {
        n := n + 1;
      }
    }
  }

  lemma {:induction false} CleanOfNames(parts: seq<string>, rooted: bool)
    requires AllPlain(parts)
    ensures CleanParts(parts, rooted) == parts
  {
    if parts != [] {
      CleanOfNames(parts[..|parts| - 1], rooted);
      assert Plain(parts[|parts| - 1]);
      assert parts == parts[..|parts| - 1] + [parts[|parts| - 1]];
    }
  }

  /** Cleaning below a clean root agrees with cleaning alone as long as the relative
      path has never climbed above its start. */
  lemma {:induction false} CleanBelowRoot(root: Path, parts: seq<string>, rooted: bool)
    requires AllPlain(root)
    requires forall k | 0 <= k <= |parts| :: ".." !in CleanParts(parts[..k], false)
    ensures CleanParts(root + parts, rooted) == root + CleanParts(parts, false)
  {
    if parts == [] {
      CleanOfNames(root, rooted);
      assert root + parts == root;
    } else {
      var front := parts[..|parts| - 1];
      assert parts[..|parts|] == parts;
      forall k | 0 <= k <= |front|
        ensures ".." !in CleanParts(front[..k], false)
      {
        assert front[..k] == parts[..k];
      }
      assert (root + parts)[..|root + parts| - 1] == root + front;
      var stack := CleanParts(front, false);
      assert stack == CleanParts(parts[..|front|], false);
      hide Push;
      CleanBelowRoot(root, front, rooted);
      PushBelowRoot(root, stack, parts[|parts| - 1], rooted);
    }
  }

  lemma PushBelowRoot(root: Path, stack: Path, part: string, rooted: bool)
    requires ".." !in stack && ".." !in Push(stack, part, false)
    ensures Push(root + stack, part, rooted) == root + Push(stack, part, false)
  {
    if stack != [] {
      assert stack[|stack| - 1] in stack;
      assert (root + stack)[..|root + stack| - 1] == root + stack[..|stack| - 1];
    }
  }

  // Once a relative path has climbed, a leading ".." never goes away.
  lemma {:induction false} ClimbsForever(parts: seq<string>, k: nat)
    requires k <= |parts| && ".." in CleanParts(parts[..k], false)
    ensures CleanParts(parts, false) != [] && CleanParts(parts, false)[0] == ".."
    decreases |parts|
  {
    if k == |parts| {
      assert parts[..k] == parts;
      var n := CleanShape(parts);
    } else {
      var front := parts[..|parts| - 1];
      assert front[..k] == parts[..k];
      ClimbsForever(front, k);
    }
  }

  lemma SafeNeverClimbs(value: string)
    requires SafeRelative(value)
    ensures forall k | 0 <= k <= |Split(value, '/')| :: ".." !in CleanParts(Split(value, '/')[..k], false)
  {
    var parts := Split(value, '/');
    forall k | 0 <= k <= |parts|
      ensures ".." !in CleanParts(parts[..k], false)
    {
      if ".." in CleanParts(parts[..k], false) {
        ClimbsForever(parts, k);
      }
    }
  }

  /** A safe relative name always lands inside the root it is joined to, at its cleaned
      path: after `safeRelative` the `ensureContained` check never fires. */
  lemma SafeRelativeIsContained(root: Path, value: string)
    requires AllPlain(root)
    requires SafeRelative(value)
    ensures JoinUnder(root, value) == root + Clean(value)
    ensures ValidPath(Clean(value)) && Contained(root, JoinUnder(root, value))
  {
    var parts := Split(value, '/');
    SafeNeverClimbs(value);
    CleanBelowRoot(root, parts, true);
    var n := CleanShape(parts);
    assert n == 0;
    SplitHasNoSeparator(value, '/');
    CleanKeepsParts(parts, false);
    forall name | name in Clean(value)
      ensures ValidName(name)
    {
      assert name in parts;
    }
    assert AllPlain(root + Clean(value));
    ContainedIsBelow(root, root + Clean(value));
  }

  lemma {:induction false} SplitHasNoSeparator(s: string, sep: char)
    ensures forall p | p in Split(s, sep) :: sep !in p
  {
    if s != [] {
      SplitHasNoSeparator(s[1..], sep);
      var rest := Split(s[1..], sep);
      assert rest[0] in rest;
    }
  }

  lemma {:induction false} CleanKeepsParts(parts: seq<string>, rooted: bool)
    ensures forall p | p in CleanParts(parts, rooted) :: p in parts
  {
    if parts != [] {
      var stack := CleanParts(parts[..|parts| - 1], rooted);
      CleanKeepsParts(parts[..|parts| - 1], rooted);
      forall p | p in CleanParts(parts, rooted)
        ensures p in parts
      {
        assert p in stack || p == ".." || p == parts[|parts| - 1];
      }
    }
  }

  /** A path of valid names is read back unchanged from its slash-separated form. */
  lemma JoinedPathIsSafe(path: Path)
    requires ValidPath(path)
    ensures var name := Join(path, '/');
            SafeRelative(name) && Clean(name) == path && Split(name, '/') == path
  {
    var name := Join(path, '/');
    forall p | p in path ensures '/' !in p && Plain(p) { assert ValidName(p); }
    SplitJoin(path, '/');
    CleanOfNames(path, false);
    assert path[0] in path;
    assert name != "" && name[0] == path[0][0];
  }

  // ---- what cleaning means, without a stack ----

  /** How far below its start a path ends, counting up for a name and down for "..". */
  function Depth(parts: seq<string>): int {
    if parts == [] then 0
    else
      var last := parts[|parts| - 1];
      Depth(parts[..|parts| - 1]) + (if last == ".." then -1 else if last == "" || last == "." then 0 else 1)
  }

  /** `safeRelative` accepts exactly the relative paths that never climb above their start and end
      below it. */
  lemma SafeRelativeIsBelow(value: string)
    ensures SafeRelative(value) <==>
      && value != "" && value[0] != '/'
      && var parts := Split(value, '/');
         Depth(parts) > 0 && forall k | 0 <= k <= |parts| :: Depth(parts[..k]) >= 0
  {
    var parts := Split(value, '/');
    hide Split;
    if k :| 0 <= k <= |parts| && Depth(parts[..k]) < 0 {
      var j := BelowStartClimbs(parts, k);
      ClimbsForever(parts, j);
    } else {
      DepthIsLength(parts);
      if Clean(value) != [] {
        assert Clean(value)[0] in Clean(value);
      }
    }
  }

  lemma {:induction false} BelowStartClimbs(parts: seq<string>, k: nat) returns (j: nat)
    requires k <= |parts| && Depth(parts[..k]) < 0
    ensures j <= |parts| && ".." in CleanParts(parts[..j], false)
  {
    var shorter := parts[..k][..k - 1];
    assert shorter == parts[..k - 1];
    if Depth(shorter) < 0 {
      j := BelowStartClimbs(parts, k - 1);
    } else if l :| 0 <= l <= k - 1 && Depth(shorter[..l]) < 0 {
      assert shorter[..l] == parts[..l];
      j := BelowStartClimbs(parts, l);
    } else {
      DepthIsLength(shorter);
      j := k;
    }
  }

  lemma {:induction false} DepthIsLength(parts: seq<string>)
    requires forall k | 0 <= k <= |parts| :: Depth(parts[..k]) >= 0
    ensures |CleanParts(parts, false)| == Depth(parts) && ".." !in CleanParts(parts, false)
  {
    if parts != [] {
      var front := parts[..|parts| - 1];
      assert parts[..|parts|] == parts;
      forall k | 0 <= k <= |front|
        ensures Depth(front[..k]) >= 0
      {
        assert front[..k] == parts[..k];
      }
      DepthIsLength(front);
      var stack := CleanParts(front, false);
      if stack != [] {
        assert stack[|stack| - 1] in stack;
      }
    }
  }

  /** There is nothing above the root of a rooted path; a relative path keeps the ".." it begins with. */
  lemma NothingAboveRoot(b: seq<string>, ups: nat)
    ensures CleanParts([".."] + b, true) == CleanParts(b, true)
    ensures var climb := seq(ups, _ => ".."); CleanParts(climb, false) == climb
    decreases ups
  {
    assert CleanParts([".."], true) == Push(CleanParts([], true), "..", true) == [];
    CleanedAlike([".."], [], b, true);
    assert [] + b == b;
    if ups > 0 {
      NothingAboveRoot(b, ups - 1);
      var climb := seq(ups, _ => "..");
      assert climb[..ups - 1] == seq(ups - 1, _ => "..");
    }
  }

  /** A name and the ".." after it cancel, wherever they stand; "." and nothing count for nothing. */
  lemma ParentCancels(a: seq<string>, name: string, b: seq<string>, rooted: bool)
    requires Plain(name)
    ensures CleanParts(a + ([name, ".."] + b), rooted) == CleanParts(a + b, rooted)
    ensures CleanParts(a + ([""] + b), rooted) == CleanParts(a + b, rooted)
    ensures CleanParts(a + (["."] + b), rooted) == CleanParts(a + b, rooted)
  {
    var named, up := a + [name], a + [name, ".."];
    assert up[..|up| - 1] == named && named[..|named| - 1] == a;
    assert CleanParts(up, rooted) == CleanParts(a, rooted);
    assert a + ([name, ".."] + b) == up + b;
    CleanedAlike(up, a, b, rooted);
    forall skipped | skipped == "" || skipped == "."
      ensures CleanParts(a + ([skipped] + b), rooted) == CleanParts(a + b, rooted)
    {
      var more := a + [skipped];
      assert more[..|more| - 1] == a && a + ([skipped] + b) == more + b;
      CleanedAlike(more, a, b, rooted);
    }
  }

  lemma {:induction false} CleanedAlike(x: seq<string>, y: seq<string>, b: seq<string>, rooted: bool)
    requires CleanParts(x, rooted) == CleanParts(y, rooted)
    ensures CleanParts(x + b, rooted) == CleanParts(y + b, rooted)
    decreases |b|
  {
    if b == [] {
      assert x + b == x && y + b == y;
    } else {
      var front := b[..|b| - 1];
      assert (x + b)[..|x + b| - 1] == x + front && (y + b)[..|y + b| - 1] == y + front;
      CleanedAlike(x, y, front, rooted);
    }
  }
}
