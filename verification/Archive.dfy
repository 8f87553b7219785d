/** World archives: `writeWorldArchive` and `extractBackup`
    (backend/internal/operations/tar.go). An archive is its list of tar entries. */
module Archive {
  import opened Text
  import opened Wrappers
  import opened Paths
  import opened Trees

  datatype Entry = Entry(name: string, kind: Kind, size: Int64, body: Bytes) {
    /** What `io.CopyN` writes for a regular entry whose body is long enough. */
    function Content(): Contents {
      if 0 <= size <= |body| then body[..size] else []
    }
  }

  datatype ArchiveError =
    | NotADirectory | NoWorlds | UnsupportedFile | EscapedPath | ReadFailed
    | UnsafePath | UnsupportedType | OverLimit | Collision | Truncated | Interrupted

  /** 100 GiB. */
  const MAX_RESTORED_BYTES: Int64 := 107_374_182_400

  // ---- writing ----

  /** The tar entry written for a visited path. */
  function Header(item: Item): Entry {
    Entry(if item.path == [] then "" else Join(item.path, '/'),
          if item.content.Some? then Regular else Directory,
          if item.content.Some? then |item.content.value| else 0,
          if item.content.Some? then item.content.value else [])
  }

  function Headers(items: seq<Item>): (entries: seq<Entry>)
    ensures |entries| == |items|
  {
    seq(|items|, i requires 0 <= i < |items| => Header(items[i]))
  }

  lemma HeadersConcat(a: seq<Item>, b: seq<Item>)
    ensures Headers(a + b) == Headers(a) + Headers(b)
  {
  }

  lemma HeadersTail(items: seq<Item>)
    requires items != []
    ensures Headers(items) != [] && Headers(items)[0] == Header(items[0])
    ensures Headers(items)[1..] == Headers(items[1..])
  {
  }

  function Present(data: Forest, names: seq<string>): (present: seq<string>)
    ensures forall n :: n in present <==> n in names && n in data
  {
    if names == [] then []
    else (if names[0] in data then [names[0]] else []) + Present(data, names[1..])
  }

  lemma {:induction false} PresentConcat(data: Forest, a: seq<string>, b: seq<string>)
    ensures Present(data, a + b) == Present(data, a) + Present(data, b)
    decreases |a|
  {
    if a == [] {
      assert a + b == b;
    } else {
      assert (a + b)[1..] == a[1..] + b;
      PresentConcat(data, a[1..], b);
    }
  }

  lemma {:induction false} PresentDistinct(data: Forest, names: seq<string>)
    requires Distinct(names)
    ensures Distinct(Present(data, names))
  {
    if names != [] {
      PresentDistinct(data, names[1..]);
    }
  }

  /** The archive of the worlds that exist, in configuration order. */
  function WorldArchive(data: Forest, names: seq<string>): seq<Entry> {
    Headers(Walk(Dir(data), Present(data, names)))
  }

  /** Every configured world is absent or a directory of regular files and directories. */
  ghost predicate ArchivableWorlds(data: Forest, names: seq<string>) {
    && (exists n :: n in names && n in data)
    && (forall n | n in names && n in data :: data[n].Dir? && Supported(data[n]))
  }

  /** The failures of one archive run: a `Stat` on a configured world, and any step of the
      visit that follows a given number of written entries. */
  datatype Faults = Faults(stat: string -> bool, visit: nat -> bool) {
    ghost predicate None() {
      (forall n :: !stat(n)) && (forall k :: !visit(k))
    }
  }

  class ArchiveWriter {
    var entries: seq<Entry>
    const faults: Faults

    constructor (faults: Faults)
      ensures entries == [] && this.faults == faults
    {
      this.faults := faults;
      entries := [];
    }

    /** The callback of `filepath.WalkDir`, with its descent into directories. */
    method Visit(prefix: Path, name: string, node: Node) returns (error: Option<ArchiveError>)
      requires WellNamed(node) && ValidName(name) && forall p | p in prefix :: ValidName(p)
      modifies this
      ensures error.None? ==> Supported(node)
      ensures error.None? ==> entries == old(entries) + NodeEntries(prefix, name, node)
      ensures faults.None() && Supported(node) ==> error.None?
      decreases node, 1
    {
      hide Walk, WalkNode, Lift, Headers, SortedNames, Header, Clean, Join, Split;
      if faults.visit(|entries|) {
        return Some(ReadFailed);
      }
      if node.Special? {
        return Some(UnsupportedFile);
      }
      var path := prefix + [name];
      JoinedPathIsSafe(path);
      if !SafeRelative(Join(path, '/')) {
        return Some(EscapedPath);
      }
      entries := entries + [Header(Visited(prefix, name, node))];
      if node.File? {
        FileEntries(prefix, name, node);
        return None;
      }
      error := VisitChildren(path, node);
      DirectoryEntries(prefix, name, node);
    }

    method VisitChildren(path: Path, dir: Node) returns (error: Option<ArchiveError>)
      requires dir.Dir? && WellNamed(dir) && forall p | p in path :: ValidName(p)
      modifies this
      ensures error.None? ==> Supported(dir)
      ensures error.None? ==>
        entries == old(entries) + WalkEntries(path, dir, SortedNames(dir.children.Keys))
      ensures faults.None() && Supported(dir) ==> error.None?
      decreases dir, 0
    {
      hide Walk, WalkNode, Lift, Headers, SortedNames, Header, WalkEntries, NodeEntries, Supported, WellNamed;
      var names := SortedNames(dir.children.Keys);
      NoEntries(path, dir);
      var i := 0;
      while i < |names|
        invariant 0 <= i <= |names|
        invariant forall j :: 0 <= j < i ==> Supported(dir.children[names[j]])
        invariant forall n | n in names[..i] :: n in dir.children
        invariant entries == old(entries) + WalkEntries(path, dir, names[..i])
      {
        var name := names[i];
        ChildIsLikeParent(dir, name);
        error := Visit(path, name, dir.children[name]);
        if error.Some? {
          return;
        }
        NextEntries(path, dir, names, i);
        i := i + 1;
      }
      assert names[..i] == names;
      ChildrenAreSupported(dir, names);
      return None;
    }

    /** `existingWorlds`: the configured worlds that exist, all of them directories. */
    method ExistingWorlds(data: Forest, names: seq<string>) returns (r: Result<seq<string>, ArchiveError>)
      ensures r.Success? ==> r.value == Present(data, names) && forall n | n in r.value :: data[n].Dir?
      ensures faults.None() && (forall n | n in names && n in data :: data[n].Dir?) ==> r.Success?
    {
      var worlds := [];
      for i := 0 to |names|
        invariant worlds == Present(data, names[..i])
        invariant forall n | n in worlds :: data[n].Dir?
      {
        var name := names[i];
        if faults.stat(name) {
          return Failure(ReadFailed);
        }
        PresentConcat(data, names[..i], [name]);
        assert names[..i] + [name] == names[..i + 1];
        if name in data {
          if !data[name].Dir? {
            return Failure(NotADirectory);
          }
          worlds := worlds + [name];
        }
      }
      assert names[..|names|] == names;
      return Success(worlds);
    }

    /** `writeWorldArchive`: on success the archive is the walk of every existing world, and
        without I/O failures it succeeds exactly on archivable worlds. */
    method WriteWorldArchive(data: Forest, names: seq<string>) returns (error: Option<ArchiveError>)
      requires WellNamed(Dir(data)) && entries == []
      modifies this
      ensures error.None? ==> ArchivableWorlds(data, names) && entries == WorldArchive(data, names)
      ensures faults.None() && ArchivableWorlds(data, names) ==> error.None?
    {
      hide Walk, WalkNode, Lift, Headers, SortedNames, Header, Supported, Present;
      var existing := ExistingWorlds(data, names);
      if existing.Failure? {
        return Some(existing.error);
      }
      var worlds := existing.value;
      if |worlds| == 0 {
        return Some(NoWorlds);
      }
      assert worlds[0] in worlds;
      var root := Dir(data);
      NoEntries([], root);
      assert worlds[..0] == [];
      for i := 0 to |worlds|
        invariant forall j :: 0 <= j < i ==> Supported(data[worlds[j]])
        invariant forall n | n in worlds[..i] :: n in data
        invariant entries == WalkEntries([], root, worlds[..i])
      {
        var name := worlds[i];
        error := Visit([], name, data[name]);
        if error.Some? {
          return;
        }
        NextEntries([], root, worlds, i);
      }
      assert worlds[..|worlds|] == worlds;
      assert forall n | n in names && n in data :: n in worlds;
      UnprefixedEntries(root, worlds);
      return None;
    }
  }

  lemma ChildIsLikeParent(dir: Node, name: string)
    requires dir.Dir? && name in dir.children && WellNamed(dir)
    ensures WellNamed(dir.children[name]) && ValidName(name)
    ensures Supported(dir) ==> Supported(dir.children[name])
  {
  }

  lemma ChildrenAreSupported(dir: Node, names: seq<string>)
    requires dir.Dir? && forall n :: n in dir.children ==> n in names
    requires forall j | 0 <= j < |names| :: names[j] in dir.children && Supported(dir.children[names[j]])
    ensures Supported(dir)
  {
  }

  lemma LiftNothing(items: seq<Item>)
    ensures Lift([], items) == items
  {
    forall i | 0 <= i < |items|
      ensures Lift([], items)[i] == items[i]
    {
      assert [] + items[i].path == items[i].path;
    }
  }

  // The entries written for one visited node, and for some children of a directory.
  function NodeEntries(prefix: Path, name: string, node: Node): seq<Entry> {
    Headers(Lift(prefix, WalkNode(name, node)))
  }

  function WalkEntries(prefix: Path, dir: Node, names: seq<string>): seq<Entry>
    requires dir.Dir? && forall n | n in names :: n in dir.children
  {
    Headers(Lift(prefix, Walk(dir, names)))
  }

  function Visited(prefix: Path, name: string, node: Node): Item {
    Item(prefix + [name], if node.File? then Some(node.data) else None)
  }

  lemma FileEntries(prefix: Path, name: string, node: Node)
    requires node.File?
    ensures NodeEntries(prefix, name, node) == [Header(Visited(prefix, name, node))]
  {
    assert Lift(prefix, WalkNode(name, node)) == [Visited(prefix, name, node)];
  }

  lemma DirectoryEntries(prefix: Path, name: string, node: Node)
    requires node.Dir?
    ensures NodeEntries(prefix, name, node) ==
            [Header(Visited(prefix, name, node))] +
            WalkEntries(prefix + [name], node, SortedNames(node.children.Keys))
  {
    var self := Item([name], None);
    var inner := Walk(node, SortedNames(node.children.Keys));
    assert WalkNode(name, node) == [self] + Lift([name], inner);
    assert Headers(Lift(prefix, [self])) == [Header(Visited(prefix, name, node))];
    hide Walk, WalkNode, Lift, Headers, SortedNames, Header;
    LiftConcat(prefix, [self], Lift([name], inner));
    LiftLift(prefix, [name], inner);
    HeadersConcat(Lift(prefix, [self]), Lift(prefix + [name], inner));
  }

  lemma NoEntries(prefix: Path, dir: Node)
    requires dir.Dir?
    ensures WalkEntries(prefix, dir, []) == []
  {
  }

  lemma UnprefixedEntries(dir: Node, names: seq<string>)
    requires dir.Dir? && forall n | n in names :: n in dir.children
    ensures WalkEntries([], dir, names) == Headers(Walk(dir, names))
  {
    LiftNothing(Walk(dir, names));
  }

  lemma NextEntries(prefix: Path, dir: Node, names: seq<string>, i: nat)
    requires dir.Dir? && i < |names| && forall n | n in names :: n in dir.children
    ensures forall n | n in names[..i + 1] :: n in dir.children
    ensures WalkEntries(prefix, dir, names[..i + 1]) ==
            WalkEntries(prefix, dir, names[..i]) + NodeEntries(prefix, names[i], dir.children[names[i]])
  {
    var node := dir.children[names[i]];
    WalkSnoc(dir, names, i);
    LiftConcat(prefix, Walk(dir, names[..i]), WalkNode(names[i], node));
    HeadersConcat(Lift(prefix, Walk(dir, names[..i])), Lift(prefix, WalkNode(names[i], node)));
  }

  lemma WalkSnoc(dir: Node, names: seq<string>, i: nat)
    requires dir.Dir? && i < |names| && forall n | n in names :: n in dir.children
    ensures forall n | n in names[..i + 1] :: n in dir.children
    ensures Walk(dir, names[..i + 1]) == Walk(dir, names[..i]) + WalkNode(names[i], dir.children[names[i]])
  {
    assert names[..i + 1] == names[..i] + [names[i]];
    WalkConcat(dir, names[..i], [names[i]]);
    assert Walk(dir, [names[i]]) == WalkNode(names[i], dir.children[names[i]]) + Walk(dir, []);
  }

  // ---- reading ----

  datatype Extraction = Extraction(staged: Forest, total: Int64)

  predicate WithinLimit(x: Extraction) {
    0 <= x.total <= MAX_RESTORED_BYTES
  }

  function ExtractEntry(worlds: seq<string>, x: Extraction, e: Entry): (r: Result<Extraction, ArchiveError>)
    requires WithinLimit(x)
    ensures r.Success? ==> WithinLimit(r.value) && r.value.total == x.total + e.size
  {
    if !SafeRelative(e.name) || Split(e.name, '/')[0] !in worlds then Failure(UnsafePath)
    else if e.kind.Unsupported? then Failure(UnsupportedType)
    else if e.size < 0 || e.size > MAX_RESTORED_BYTES - x.total then Failure(OverLimit)
    else
      var content := if e.kind.Directory? then None else Some(e.Content());
      var next := Place(x.staged, Clean(e.name), content);
      if next.None? then Failure(Collision)
      else if e.kind.Regular? && |e.body| < e.size then Failure(Truncated)
      else Success(Extraction(next.value, x.total + e.size))
  }

  function ExtractAll(worlds: seq<string>, x: Extraction, entries: seq<Entry>): (r: Result<Extraction, ArchiveError>)
    requires WithinLimit(x)
    ensures r.Success? ==> WithinLimit(r.value)
    decreases |entries|
  {
    if entries == [] then Success(x)
    else
      var next := ExtractEntry(worlds, x, entries[0]);
      if next.Failure? then next else ExtractAll(worlds, next.value, entries[1..])
  }

  /** `extractBackup` into an empty staging directory. Reading or writing may fail before
      any entry; otherwise the outcome is the fold over all entries. */
  method ExtractBackup(worlds: seq<string>, entries: seq<Entry>, interrupted: nat -> bool)
    returns (r: Result<Forest, ArchiveError>)
    ensures r == Failure(Interrupted) ||
            r == match ExtractAll(worlds, Extraction(map[], 0), entries)
                 case Success(x) => Success(x.staged)
                 case Failure(e) => Failure(e)
    ensures r == Failure(Interrupted) ==> exists k :: interrupted(k)
  {
    var staged: Forest := map[];
    var total: Int64 := 0;
    var i := 0;
    while i < |entries|
      invariant 0 <= i <= |entries| && WithinLimit(Extraction(staged, total))
      invariant ExtractAll(worlds, Extraction(map[], 0), entries) ==
                ExtractAll(worlds, Extraction(staged, total), entries[i..])
    {
      if interrupted(i) {
        return Failure(Interrupted);
      }
      var e := entries[i];
      if !SafeRelative(e.name) || Split(e.name, '/')[0] !in worlds {
        return Failure(UnsafePath);
      }
      if e.kind.Unsupported? {
        return Failure(UnsupportedType);
      }
      var room: Int64 := MAX_RESTORED_BYTES - total;
      if e.size < 0 || e.size > room {
        return Failure(OverLimit);
      }
      total := total + e.size;
      var target := JoinUnder(["staging"], e.name);
      SafeRelativeIsContained(["staging"], e.name);
      if !Contained(["staging"], target) {
        return Failure(EscapedPath);
      }
      var relative := target[1..];
      if e.kind.Directory? {
        var made := Place(staged, relative, None);
        if made.None? {
          return Failure(Collision);
        }
        staged := made.value;
      } else {
        var made := Place(staged, relative, Some(e.Content()));
        if made.None? {
          return Failure(Collision);
        }
        if |e.body| < e.size {
          return Failure(Truncated);
        }
        staged := made.value;
      }
      i := i + 1;
    }
    return Success(staged);
  }

  // ---- what extraction accepts ----

  /** The item an accepted entry stands for. */
  function ItemOf(e: Entry): Item {
    Item(Clean(e.name),
         if e.kind.Regular? then Some(e.Content()) else None)
  }

  function ItemsOf(entries: seq<Entry>): (items: seq<Item>)
    ensures |items| == |entries|
  {
    seq(|entries|, i requires 0 <= i < |entries| => ItemOf(entries[i]))
  }

  /** For every archive, however it was made: success builds exactly the accepted entries,
      each file under its own cleaned path below the staging directory, its raw name starts with
      a configured world, and the bytes written stay within the restore limit. */
  lemma ExtractionIsSound(worlds: seq<string>, x: Extraction, entries: seq<Entry>)
    requires WithinLimit(x) && ExtractAll(worlds, x, entries).Success?
    ensures Build(x.staged, ItemsOf(entries)) == Some(ExtractAll(worlds, x, entries).value.staged)
    ensures x.total + FileBytes(ItemsOf(entries)) <= ExtractAll(worlds, x, entries).value.total
    ensures ExtractAll(worlds, x, entries).value.total == x.total + SumOfSizes(entries) <= 107_374_182_400
    ensures forall e | e in entries ::
      !e.kind.Unsupported? && e.size >= 0 && ValidPath(Clean(e.name)) && Split(e.name, '/')[0] in worlds
    ensures forall e | e in entries && e.kind.Regular? :: 0 <= e.size <= |e.body|
  {
    hide ExtractAll, ItemsOf, Build, FileBytes, Clean, Split;
    ExtractionBuilds(worlds, x, entries);
    forall i | 0 <= i < |entries|
      ensures Acceptable(worlds, entries[i])
    {
      EntriesAreAcceptable(worlds, x, entries, i);
    }
  }

  /** The sizes that the entries declare. */
  function SumOfSizes(entries: seq<Entry>): int {
    if entries == [] then 0 else entries[0].size + SumOfSizes(entries[1..])
  }

  /** What the checks of an accepted entry guarantee. */
  predicate Acceptable(worlds: seq<string>, e: Entry) {
    && !e.kind.Unsupported? && e.size >= 0
    && ValidPath(Clean(e.name)) && Split(e.name, '/')[0] in worlds
    && (e.kind.Regular? ==> 0 <= e.size <= |e.body|)
  }

  lemma {:induction false} ExtractionBuilds(worlds: seq<string>, x: Extraction, entries: seq<Entry>)
    requires WithinLimit(x) && ExtractAll(worlds, x, entries).Success?
    ensures Build(x.staged, ItemsOf(entries)) == Some(ExtractAll(worlds, x, entries).value.staged)
    ensures x.total + FileBytes(ItemsOf(entries)) <= ExtractAll(worlds, x, entries).value.total
    ensures ExtractAll(worlds, x, entries).value.total == x.total + SumOfSizes(entries)
    decreases |entries|
  {
    if entries != [] {
      var next := ExtractEntry(worlds, x, entries[0]).value;
      EntryIsSound(worlds, x, entries[0]);
      hide ExtractEntry, Place, ItemOf, Acceptable;
      ExtractionBuilds(worlds, next, entries[1..]);
      assert ItemsOf(entries)[1..] == ItemsOf(entries[1..]);
    }
  }

  lemma {:induction false} EntriesAreAcceptable(worlds: seq<string>, x: Extraction, entries: seq<Entry>, i: nat)
    requires WithinLimit(x) && ExtractAll(worlds, x, entries).Success? && i < |entries|
    ensures Acceptable(worlds, entries[i])
    decreases |entries|
  {
    EntryIsSound(worlds, x, entries[0]);
    hide ExtractEntry, Acceptable;
    if i > 0 {
      EntriesAreAcceptable(worlds, ExtractEntry(worlds, x, entries[0]).value, entries[1..], i - 1);
    }
  }

  lemma EntryIsSound(worlds: seq<string>, x: Extraction, e: Entry)
    requires WithinLimit(x) && ExtractEntry(worlds, x, e).Success?
    ensures var next := ExtractEntry(worlds, x, e).value;
            && Place(x.staged, ItemOf(e).path, ItemOf(e).content) == Some(next.staged)
            && x.total + ItemBytes(ItemOf(e)) <= next.total
    ensures Acceptable(worlds, e)
  {
    hide Place, Clean, Split;
    SafeRelativeIsContained([], e.name);
  }

  /** The archive records `data` as the file at `at`. */
  ghost predicate Records(entries: seq<Entry>, at: Path, data: Contents) {
    exists e :: e in entries && e.kind.Regular? && Clean(e.name) == at && e.Content() == data
  }

  /** An extracted tree holds exactly the archive's files: nothing else, nothing twice. */
  lemma ExtractedFilesAreTheArchive(worlds: seq<string>, entries: seq<Entry>, at: Path, data: Contents)
    requires ExtractAll(worlds, Extraction(map[], 0), entries).Success?
    ensures FileAt(ExtractAll(worlds, Extraction(map[], 0), entries).value.staged, at) == Some(data) <==>
            Records(entries, at, data)
    ensures FilesDistinct(ItemsOf(entries))
    ensures FileBytes(ItemsOf(entries)) <= MAX_RESTORED_BYTES
  {
    assert FileAt(map[], at).None?;
    hide ExtractAll, ExtractEntry, Build, Place, FileAt, ItemsOf, Clean, Records;
    ExtractionIsSound(worlds, Extraction(map[], 0), entries);
    BuildHoldsItems(map[], ItemsOf(entries), at, data);
    BuildFilesDistinct(map[], ItemsOf(entries));
    FileItemIsEntry(entries, at, data);
  }

  lemma FileItemIsEntry(entries: seq<Entry>, at: Path, data: Contents)
    ensures Item(at, Some(data)) in ItemsOf(entries) <==> Records(entries, at, data)
  {
    var items := ItemsOf(entries);
    if Item(at, Some(data)) in items {
      var i :| 0 <= i < |items| && items[i] == Item(at, Some(data));
      assert entries[i] in entries;
    }
    if Records(entries, at, data) {
      var e :| e in entries && e.kind.Regular? && Clean(e.name) == at && e.Content() == data;
      var i :| 0 <= i < |entries| && entries[i] == e;
      assert items[i] == Item(at, Some(data));
    }
  }

  // ---- the round trip ----

  /** Every item has a writable path whose first part is a configured world. */
  ghost predicate Addressed(worlds: seq<string>, items: seq<Item>) {
    forall i | 0 <= i < |items| :: ValidPath(items[i].path) && items[i].path[0] in worlds
  }

  lemma {:induction false} ExtractIsBuild(worlds: seq<string>, x: Extraction, items: seq<Item>)
    requires WithinLimit(x) && Addressed(worlds, items) && Build(x.staged, items).Some?
    requires x.total + FileBytes(items) <= MAX_RESTORED_BYTES
    ensures ExtractAll(worlds, x, Headers(items)) ==
            Success(Extraction(Build(x.staged, items).value, x.total + FileBytes(items)))
    decreases |items|
  {
    hide ExtractEntry, Place, Header, ValidPath;
    if items != [] {
      HeadersTail(items);
      hide Headers;
      var next := Extraction(Place(x.staged, items[0].path, items[0].content).value, x.total + ItemBytes(items[0]));
      ExtractsItem(worlds, x, items[0]);
      ExtractIsBuild(worlds, next, items[1..]);
    }
  }

  lemma ExtractsItem(worlds: seq<string>, x: Extraction, item: Item)
    requires WithinLimit(x) && ValidPath(item.path) && item.path[0] in worlds
    requires Place(x.staged, item.path, item.content).Some?
    requires x.total + ItemBytes(item) <= MAX_RESTORED_BYTES
    ensures ExtractEntry(worlds, x, Header(item)) ==
            Success(Extraction(Place(x.staged, item.path, item.content).value, x.total + ItemBytes(item)))
  {
    JoinedPathIsSafe(item.path);
    hide Place, Join, Split, Clean, SafeRelative;
    if item.content.Some? {
      assert item.content.value[..|item.content.value|] == item.content.value;
    }
  }

  lemma {:induction false} WalkIsAddressed(dir: Node, names: seq<string>)
    requires dir.Dir? && WellNamed(dir) && forall n | n in names :: n in dir.children
    ensures Addressed(names, Walk(dir, names))
    decreases dir, 0, |names|
  {
    if names != [] {
      NodeIsAddressed(names[0], dir.children[names[0]]);
      WalkIsAddressed(dir, names[1..]);
    }
  }

  lemma {:induction false} NodeIsAddressed(name: string, node: Node)
    requires ValidName(name) && WellNamed(node)
    ensures Addressed([name], WalkNode(name, node))
    decreases node, 1, 0
  {
    if node.Dir? {
      var inner := Walk(node, SortedNames(node.children.Keys));
      WalkIsAddressed(node, SortedNames(node.children.Keys));
      forall i | 0 <= i < |inner|
        ensures ValidPath(Lift([name], inner)[i].path)
      {
        assert Lift([name], inner)[i].path == [name] + inner[i].path;
      }
    }
  }

  /** Archiving the existing worlds and extracting the archive into an empty directory
      reproduces exactly those worlds, with no collision on the way. */
  lemma ArchiveThenExtract(data: Forest, names: seq<string>)
    requires Distinct(names) && WellNamed(Dir(data)) && ArchivableWorlds(data, names)
    requires FileBytes(Walk(Dir(data), Present(data, names))) <= MAX_RESTORED_BYTES
    ensures var r := ExtractAll(names, Extraction(map[], 0), WorldArchive(data, names));
            r.Success? && r.value.staged == Select(data, names)
  {
    hide Walk, Select, Build, ExtractAll, FileBytes, ArchivableWorlds, WellNamed;
    var present := Present(data, names);
    var items := Walk(Dir(data), present);
    assert WellNamed(Dir(data));
    RebuildsPresent(data, names);
    WalkIsAddressed(Dir(data), present);
    ExtractIsBuild(names, Extraction(map[], 0), items);
  }

  lemma RebuildsPresent(data: Forest, names: seq<string>)
    requires Distinct(names) && ArchivableWorlds(data, names)
    ensures Build(map[], Walk(Dir(data), Present(data, names))) == Some(Select(data, names))
  {
    hide Walk, WalkNode, Build;
    PresentDistinct(data, names);
    SelectPresent(data, names);
    hide Select, Present;
    RebuildsWalk(map[], Dir(data), Present(data, names));
  }

  lemma SelectPresent(data: Forest, names: seq<string>)
    ensures map[] + Select(data, Present(data, names)) == Select(data, names)
  {
  }

  /** The archive has a regular entry with these bytes under the slash form of a path if and only
      if the file is in one of the worlds. */
  lemma ArchiveRecordsFiles(data: Forest, names: seq<string>, path: Path, content: Contents)
    requires Distinct(names) && WellNamed(Dir(data)) && ArchivableWorlds(data, names) && ValidPath(path)
    ensures Entry(Join(path, '/'), Regular, |content|, content) in WorldArchive(data, names) <==>
            path[0] in names && FileAt(data, path) == Some(content)
  {
    hide Walk, Present, ArchivableWorlds, WellNamed, Join, FileAt, ValidPath, Addressed, Headers;
    var items, item := Walk(Dir(data), Present(data, names)), Item(path, Some(content));
    assert path != [] by { NotEmpty(path); }
    assert Addressed(Present(data, names), items) by {
      assert WellNamed(Dir(data));
      WalkIsAddressed(Dir(data), Present(data, names));
    }
    HeaderIn(Present(data, names), items, item);
    WalkHoldsFiles(data, names, path, content);
    SelectedFile(data, names, path);
  }

  lemma NotEmpty(path: Path)
    requires ValidPath(path)
    ensures path != []
  {
  }

  lemma WalkHoldsFiles(data: Forest, names: seq<string>, path: Path, content: Contents)
    requires Distinct(names) && ArchivableWorlds(data, names)
    ensures Item(path, Some(content)) in Walk(Dir(data), Present(data, names)) <==>
            FileAt(Select(data, names), path) == Some(content)
  {
    assert FileAt(map[], path).None?;
    hide Walk, Build, Present, ArchivableWorlds, FileAt, Select;
    RebuildsPresent(data, names);
    BuildHoldsItems(map[], Walk(Dir(data), Present(data, names)), path, content);
  }

  lemma SelectedFile(data: Forest, names: seq<string>, path: Path)
    requires path != []
    ensures FileAt(Select(data, names), path) == if path[0] in names then FileAt(data, path) else None
  {
  }

  /** Headers of different items are different. */
  lemma HeaderIn(worlds: seq<string>, items: seq<Item>, item: Item)
    requires Addressed(worlds, items)
    requires ValidPath(item.path) && item.content.Some?
    ensures Header(item) in Headers(items) <==> item in items
  {
    hide Join, Split, SafeRelative, Clean;
    var headers := Headers(items);
    if item in items {
      var i :| 0 <= i < |items| && items[i] == item;
      assert headers[i] == Header(item);
    }
    if Header(item) in headers {
      var i :| 0 <= i < |headers| && headers[i] == Header(item);
      JoinedPathIsSafe(items[i].path);
      JoinedPathIsSafe(item.path);
      assert items[i] == item;
    }
  }

  /** In the archive every directory comes before what it holds. */
  lemma ArchiveParentsFirst(data: Forest, names: seq<string>)
    ensures ParentsFirst(Walk(Dir(data), Present(data, names)))
  {
    WalkParentsFirst(Dir(data), Present(data, names));
  }
}
