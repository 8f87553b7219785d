/** The ZIP archive of a world, as a player makes it, and what `extractWorldZip` yields for it
    (backend/internal/operations/zip.go). */
module Uploads {
  import opened Text
  import opened Wrappers
  import opened Paths
  import opened Trees
  import opened Zip
  import opened ZipLevel

  // ---- worlds and their archives ----

  /** A name that is neither a resource fork nor hard to write on some system. */
  predicate Ordinary(name: string) {
    ValidName(name) && '\\' !in name && name != "__MACOSX" && name != ".DS_Store"
  }

  /** Regular files and directories under ordinary names, and no level data below this. */
  ghost predicate OrdinaryNode(node: Node) {
    match node
    case File(_) => true
    case Dir(children) =>
      forall name | name in children :: Ordinary(name) && name != "level.dat" && OrdinaryNode(children[name])
    case Special => false
  }

  /** A world: its level data at the top, and nowhere else. */
  ghost predicate OrdinaryWorld(tree: Forest) {
    && "level.dat" in tree && tree["level.dat"].File?
    && forall name | name in tree :: Ordinary(name) && OrdinaryNode(tree[name])
  }

  /** The slash form of a path; that of a directory ends in a slash. */
  function Written(path: Path, directory: bool): string
    requires path != []
  {
    Join(path, '/') + (if directory then "/" else "")
  }

  /** The ZIP entry of an item below `top`. */
  function Zipped(top: Path, item: Item): Entry
    requires item.path != []
  {
    if item.content.Some?
    then Entry(Written(top + item.path, false), Regular, |item.content.value|, item.content.value)
    else Entry(Written(top + item.path, true), Directory, 0, [])
  }

  function ZippedAll(top: Path, items: seq<Item>): (entries: seq<Entry>)
    requires Placeable(items)
    ensures |entries| == |items|
  {
    seq(|items|, i requires 0 <= i < |items| => Zipped(top, items[i]))
  }

  function ItemsIn(tree: Forest): (items: seq<Item>)
    ensures Placeable(items)
  {
    WalkIsPlaceable(Dir(tree), SortedNames(tree.Keys));
    Walk(Dir(tree), SortedNames(tree.Keys))
  }

  /** The archive of a world: its files and directories, alone or below a directory of their own. */
  function ZipOf(tree: Forest, top: Option<string>): seq<Entry> {
    match top
    case None => ZippedAll([], ItemsIn(tree))
    case Some(name) => [Entry(Written([name], true), Directory, 0, [])] + ZippedAll([name], ItemsIn(tree))
  }

  // ---- written names ----

  predicate OrdinaryPath(path: Path) {
    path != [] && forall i | 0 <= i < |path| :: Ordinary(path[i])
  }

  function LastOf(path: Path): string
    requires path != []
  {
    path[|path| - 1]
  }

  /** What the archive reader finds out about a written name. */
  ghost predicate ReadsAs(name: string, path: Path) {
    && path != [] && name != "" && name[0] != '/' && !("./" <= name) && !("__MACOSX/" <= name)
    && '\\' !in name && SafeRelative(name) && Clean(name) == path && Base(name) == LastOf(path)
  }

  lemma {:induction false} NoBackslashJoined(path: Path)
    requires OrdinaryPath(path)
    ensures '\\' !in Join(path, '/')
  {
    assert Ordinary(path[0]);
    if |path| > 1 {
      assert forall i | 0 <= i < |path[1..]| :: path[1..][i] == path[i + 1];
      NoBackslashJoined(path[1..]);
    }
  }

  lemma JoinedParts(path: Path)
    requires OrdinaryPath(path)
    ensures var name := Join(path, '/');
            SafeRelative(name) && Clean(name) == path && Split(name, '/') == path
  {
    forall p | p in path
      ensures ValidName(p)
    {
      var i :| 0 <= i < |path| && path[i] == p;
      assert Ordinary(path[i]);
    }
    JoinedPathIsSafe(path);
  }

  lemma WrittenReads(path: Path, directory: bool)
    requires OrdinaryPath(path)
    ensures ReadsAs(Written(path, directory), path)
  {
    var joined, name := Join(path, '/'), Written(path, directory);
    JoinedParts(path);
    NoBackslashJoined(path);
    assert Ordinary(path[0]) && Ordinary(LastOf(path));
    hide Join, SafeRelative, Clean, Base;
    if directory {
      WithSlash(joined, path);
    } else {
      assert name == joined;
      BaseIsLastPart(joined, path);
    }
    FirstPartDecides(name, path[0]);
  }

  lemma BaseIsLastPart(name: string, path: Path)
    requires path != [] && Split(name, '/') == path && LastOf(path) != ""
    ensures Base(name) == LastOf(path)
  {
    hide Split;
  }

  /** A slash at the end changes neither the cleaned path nor the base. */
  lemma WithSlash(joined: string, path: Path)
    requires OrdinaryPath(path) && Split(joined, '/') == path && SafeRelative(joined) && Clean(joined) == path
    requires '\\' !in joined
    ensures var name := joined + "/";
      && Split(name, '/') == path + [""] && Clean(name) == path && SafeRelative(name) && Base(name) == LastOf(path)
      && '\\' !in name
  {
    SplitSlash(joined);
    assert Ordinary(LastOf(path));
    assert (joined + "/")[0] == joined[0];
    hide Split, CleanParts, BaseParts, Ordinary;
    EmptyLast(path);
    assert Base(joined + "/") == LastOf(path) by { hide SafeRelative, Clean; }
  }

  lemma SplitSlash(joined: string)
    ensures Split(joined + "/", '/') == Split(joined, '/') + [""]
  {
    SplitAtSeparator(joined, "", '/');
    assert joined + "/" + "" == joined + "/";
  }

  lemma EmptyLast(path: Path)
    requires path != [] && LastOf(path) != ""
    ensures CleanParts(path + [""], false) == CleanParts(path, false)
    ensures BaseParts(path + [""]) == path
  {
    assert (path + [""])[..|path|] == path;
    assert BaseParts(path) == path;
  }

  lemma FirstPartDecides(name: string, first: string)
    requires Split(name, '/')[0] == first && Ordinary(first)
    ensures name != "" && name[0] != '/' && !("./" <= name) && !("__MACOSX/" <= name)
  {
    var dot, mac := ".", "__MACOSX";
    assert '/' !in dot && '/' !in mac;
    if dot + "/" <= name {
      FirstPart(name, dot);
    }
    if mac + "/" <= name {
      FirstPart(name, mac);
    }
    if name == "" || name[0] == '/' {
      SplitStart(name);
    }
  }

  lemma SplitStart(name: string)
    requires name == "" || name[0] == '/'
    ensures Split(name, '/')[0] == ""
  {
  }

  // ---- the level data ----

  /** Entries under ordinary names, none of which is level data. */
  ghost predicate NoLevel(items: seq<Item>) {
    forall i | 0 <= i < |items| :: OrdinaryPath(items[i].path) && LastOf(items[i].path) != "level.dat"
  }

  lemma {:induction false} WalkHasNoLevel(dir: Node, names: seq<string>)
    requires dir.Dir? && forall n | n in names :: n in dir.children
    requires forall i | 0 <= i < |names| ::
      Ordinary(names[i]) && names[i] != "level.dat" && OrdinaryNode(dir.children[names[i]])
    ensures NoLevel(Walk(dir, names))
    decreases dir, 0, |names|
  {
    if names != [] {
      var node, rest := dir.children[names[0]], names[1..];
      assert Walk(dir, names) == WalkNode(names[0], node) + Walk(dir, rest);
      hide Walk, SortedNames, WalkNode, OrdinaryNode, Ordinary, OrdinaryPath;
      NodeHasNoLevel(names[0], node);
      WalkHasNoLevel(dir, rest);
    }
  }

  lemma {:induction false} NodeHasNoLevel(name: string, node: Node)
    requires Ordinary(name) && name != "level.dat" && OrdinaryNode(node)
    ensures NoLevel(WalkNode(name, node))
    decreases node, 1, 0
  {
    match node
    case File(_) =>
    case Special =>
    case Dir(children) =>
      WalkHasNoLevel(node, SortedNames(children.Keys));
      BelowHasNoLevel(name, Walk(node, SortedNames(children.Keys)));
  }

  lemma BelowHasNoLevel(name: string, inner: seq<Item>)
    requires Ordinary(name) && name != "level.dat" && NoLevel(inner)
    ensures NoLevel([Item([name], None)] + Lift([name], inner))
  {
    var items := [Item([name], None)] + Lift([name], inner);
    forall i | 0 <= i < |items|
      ensures OrdinaryPath(items[i].path) && LastOf(items[i].path) != "level.dat"
    {
      if i > 0 {
        assert items[i].path == [name] + inner[i - 1].path;
      }
    }
  }

  lemma {:induction false} LevelPathsConcat(a: seq<Entry>, b: seq<Entry>)
    ensures LevelPaths(a + b) == LevelPaths(a) + LevelPaths(b)
  {
    hide TrimPrefix, Base;
    if a == [] {
      assert a + b == b;
    } else {
      assert (a + b)[1..] == a[1..] + b;
      LevelPathsConcat(a[1..], b);
    }
  }

  /** What the prefix search makes of one entry. */
  lemma LevelPathOf(e: Entry, path: Path)
    requires ReadsAs(e.name, path)
    ensures TrimPrefix(e.name, "./") == e.name && Acceptable(e.name)
    ensures LevelPaths([e]) == if LastOf(path) == "level.dat" then [e.name] else []
  {
    hide Base, SafeRelative;
    assert [e][1..] == [];
  }

  lemma {:induction false} NoLevelPaths(top: Path, items: seq<Item>)
    requires NoLevel(items) && (top != [] ==> OrdinaryPath(top))
    ensures LevelPaths(ZippedAll(top, items)) == []
    decreases |items|
  {
    if items != [] {
      var entries, first := ZippedAll(top, items), Zipped(top, items[0]);
      assert entries == [first] + ZippedAll(top, items[1..]);
      NoLevelPaths(top, items[1..]);
      LevelPathsConcat([first], ZippedAll(top, items[1..]));
      ZippedReads(top, items[0]);
      LevelPathOf(first, top + items[0].path);
    }
  }

  lemma ZippedReads(top: Path, item: Item)
    requires OrdinaryPath(item.path) && (top != [] ==> OrdinaryPath(top))
    ensures ReadsAs(Zipped(top, item).name, top + item.path)
    ensures LastOf(top + item.path) == LastOf(item.path)
  {
    hide ReadsAs, Join;
    assert OrdinaryPath(top + item.path);
    WrittenReads(top + item.path, item.content.None?);
  }

  lemma ZippedConcat(top: Path, a: seq<Item>, b: seq<Item>)
    requires Placeable(a) && Placeable(b)
    ensures Placeable(a + b) && ZippedAll(top, a + b) == ZippedAll(top, a) + ZippedAll(top, b)
  {
  }

  /** In the archive of some of a world's names the level data is found once, or not at all. */
  lemma {:induction false} LevelOnce(tree: Forest, names: seq<string>, top: Path)
    requires OrdinaryWorld(tree) && Distinct(names) && forall n | n in names :: n in tree
    requires top != [] ==> OrdinaryPath(top)
    ensures Placeable(Walk(Dir(tree), names))
    ensures LevelPaths(ZippedAll(top, Walk(Dir(tree), names))) ==
            if "level.dat" in names then [Written(top + ["level.dat"], false)] else []
    decreases |names|
  {
    WalkIsPlaceable(Dir(tree), names);
    if names != [] {
      var dir, rest := Dir(tree), names[1..];
      var head := WalkNode(names[0], tree[names[0]]);
      assert Walk(dir, names) == head + Walk(dir, rest);
      NodeIsPlaceable(names[0], tree[names[0]]);
      hide Walk, WalkNode, LevelPaths, ZippedAll, Join, OrdinaryNode;
      LevelOnce(tree, rest, top);
      ZippedConcat(top, head, Walk(dir, rest));
      LevelPathsConcat(ZippedAll(top, head), ZippedAll(top, Walk(dir, rest)));
      assert names[0] !in rest by { NotInRest(names); }
      if names[0] == "level.dat" {
        LevelEntryPath(tree["level.dat"], top);
      } else {
        NodeHasNoLevel(names[0], tree[names[0]]);
        NoLevelPaths(top, head);
      }
    }
  }

  lemma NotInRest(names: seq<string>)
    requires Distinct(names) && names != []
    ensures names[0] !in names[1..]
  {
  }

  lemma LevelEntryPath(node: Node, top: Path)
    requires node.File? && (top != [] ==> OrdinaryPath(top))
    ensures Placeable(WalkNode("level.dat", node))
    ensures LevelPaths(ZippedAll(top, WalkNode("level.dat", node))) == [Written(top + ["level.dat"], false)]
  {
    var item := Item(["level.dat"], Some(node.data));
    assert WalkNode("level.dat", node) == [item];
    assert ZippedAll(top, [item]) == [Zipped(top, item)];
    LevelIsOrdinary();
    hide Join, LevelPaths, Ordinary;
    assert OrdinaryPath(["level.dat"]);
    ZippedReads(top, item);
    LevelPathOf(Zipped(top, item), top + item.path);
  }

  lemma LevelIsOrdinary()
    ensures Ordinary("level.dat")
  {
  }

  ghost predicate OrdinaryItems(items: seq<Item>) {
    forall i | 0 <= i < |items| :: OrdinaryPath(items[i].path)
  }

  lemma {:induction false} WorldIsOrdinary(tree: Forest, names: seq<string>)
    requires OrdinaryWorld(tree) && forall n | n in names :: n in tree
    ensures OrdinaryItems(Walk(Dir(tree), names))
    decreases |names|
  {
    if names != [] {
      var name, rest := names[0], names[1..];
      var node := tree[name];
      assert Walk(Dir(tree), names) == WalkNode(name, node) + Walk(Dir(tree), rest);
      if name == "level.dat" {
        assert WalkNode(name, node) == [Item([name], Some(node.data))];
      } else {
        NodeHasNoLevel(name, node);
      }
      hide Walk, WalkNode, OrdinaryNode;
      WorldIsOrdinary(tree, rest);
    }
  }

  // ---- extraction ----

  /** The prefix that the search should find. */
  function PrefixOf(top: Option<string>): string {
    if top.Some? then top.value + "/" else ""
  }

  function TopOf(top: Option<string>): Path {
    if top.Some? then [top.value] else []
  }

  ghost predicate GoodTop(top: Option<string>) {
    top.Some? ==> Ordinary(top.value) && top.value != "level.dat"
  }

  lemma ZipNamesAreAcceptable(tree: Forest, top: Option<string>)
    requires OrdinaryWorld(tree) && GoodTop(top)
    ensures AllAcceptable(ZipOf(tree, top))
  {
    WorldIsOrdinary(tree, SortedNames(tree.Keys));
    hide AllAcceptable, ZippedAll, Walk, OrdinaryWorld, Written, Ordinary;
    ZippedAreAcceptable(TopOf(top), ItemsIn(tree));
    if top.Some? {
      FolderIsAcceptable(top.value, ZippedAll([top.value], ItemsIn(tree)));
    }
  }

  predicate AllAcceptable(entries: seq<Entry>) {
    forall i | 0 <= i < |entries| :: Acceptable(TrimPrefix(entries[i].name, "./"))
  }

  lemma FolderIsAcceptable(top: string, entries: seq<Entry>)
    requires Ordinary(top) && AllAcceptable(entries)
    ensures AllAcceptable([Entry(Written([top], true), Directory, 0, [])] + entries)
  {
    hide Acceptable, TrimPrefix, Written, ReadsAs, Ordinary;
    WrittenReads([top], true);
    LevelPathOf(Entry(Written([top], true), Directory, 0, []), [top]);
  }

  lemma ZippedAreAcceptable(top: Path, items: seq<Item>)
    requires Placeable(items) && OrdinaryItems(items) && (top != [] ==> OrdinaryPath(top))
    ensures AllAcceptable(ZippedAll(top, items))
  {
    hide Acceptable, TrimPrefix, Zipped, ReadsAs, OrdinaryPath;
    forall i | 0 <= i < |items|
      ensures Acceptable(TrimPrefix(ZippedAll(top, items)[i].name, "./"))
    {
      assert items[i].path != [] by { assert OrdinaryPath(items[i].path); }
      ZippedReads(top, items[i]);
      LevelPathOf(Zipped(top, items[i]), top + items[i].path);
    }
  }

  lemma ZipHasOneLevel(tree: Forest, top: Option<string>)
    requires OrdinaryWorld(tree) && GoodTop(top)
    ensures LevelPaths(ZipOf(tree, top)) == [Written(TopOf(top) + ["level.dat"], false)]
  {
    hide Acceptable, TrimPrefix, Join, Walk, ReadsAs, LevelPaths, OrdinaryNode;
    SortedNamesDistinct(tree.Keys);
    LevelOnce(tree, SortedNames(tree.Keys), TopOf(top));
    if top.Some? {
      var folder := Entry(Written([top.value], true), Directory, 0, []);
      LevelPathsConcat([folder], ZippedAll([top.value], ItemsIn(tree)));
      WrittenReads([top.value], true);
      LevelPathOf(folder, [top.value]);
    }
  }

  /** The prefix search finds the directory of the world. */
  lemma ZipPrefix(tree: Forest, top: Option<string>)
    requires OrdinaryWorld(tree) && GoodTop(top)
    ensures WorldPrefix(ZipOf(tree, top)) == Success(PrefixOf(top))
  {
    hide Acceptable, TrimPrefix, ZipOf, LevelPaths, OrdinaryWorld, Written, DirParts, Join, TopOf, PrefixOf;
    ZipNamesAreAcceptable(tree, top);
    ZipHasOneLevel(tree, top);
    LevelDirectoryIsTop(top);
  }

  lemma LevelDirectoryIsTop(top: Option<string>)
    requires GoodTop(top)
    ensures DirParts(Written(TopOf(top) + ["level.dat"], false)) == TopOf(top)
    ensures PrefixOf(top) == if TopOf(top) == [] then "" else Join(TopOf(top), '/') + "/"
  {
    LevelIsOrdinary();
    hide Ordinary, SafeRelative, Clean;
    var path := TopOf(top) + ["level.dat"];
    assert OrdinaryPath(path);
    JoinedParts(path);
    WrittenFile(path);
    TopIsClean(top);
    assert path[..|path| - 1] == TopOf(top);
    hide Split, CleanParts;
  }

  lemma WrittenFile(path: Path)
    requires path != []
    ensures Written(path, false) == Join(path, '/')
  {
    hide Join;
  }

  lemma TopIsClean(top: Option<string>)
    requires GoodTop(top)
    ensures CleanParts(TopOf(top), false) == TopOf(top)
  {
    CleanOfNames(TopOf(top), false);
  }

  /** The name of an entry is the prefix and the name it has inside the world. */
  lemma BelowTop(top: Option<string>, path: Path, directory: bool)
    requires path != []
    ensures Written(TopOf(top) + path, directory) == PrefixOf(top) + Written(path, directory)
  {
    var full := TopOf(top) + path;
    if top.Some? {
      assert full[0] == top.value && full[1..] == path;
      assert Join(full, '/') == top.value + "/" + Join(path, '/');
    } else {
      assert full == path;
    }
    hide Join;
  }

  /** The loop takes every entry of the archive at its path inside the world. */
  lemma ZippedIsTaken(top: Option<string>, item: Item)
    requires GoodTop(top) && OrdinaryPath(item.path)
    ensures var e := Zipped(TopOf(top), item);
            var name := Written(item.path, item.content.None?);
            Sort(PrefixOf(top), e) == Take(name) && Clean(name) == item.path
  {
    var inner := Written(item.path, item.content.None?);
    assert Ordinary(LastOf(item.path));
    hide Written, Clean, SafeRelative, Base, TopOf;
    WrittenReads(item.path, item.content.None?);
    BelowTop(top, item.path, item.content.None?);
    Trimmed(PrefixOf(top), inner);
    hide TrimPrefix, PrefixOf;
  }

  lemma Trimmed(prefix: string, inner: string)
    requires inner != "" && inner[0] != '/'
    ensures prefix <= prefix + inner && TrimPrefix(TrimPrefix(prefix + inner, prefix), "/") == inner
  {
    assert (prefix + inner)[|prefix|..] == inner;
  }

  lemma FolderIsSkipped(top: string)
    requires Ordinary(top)
    ensures Sort(PrefixOf(Some(top)), Entry(Written([top], true), Directory, 0, [])) == Skip
  {
    var name := top + "/";
    assert Written([top], true) == name && PrefixOf(Some(top)) == name;
    assert TrimPrefix(name, name) == "" && TrimPrefix("", "/") == "";
  }

  lemma {:induction false} ZippedIsBuilt(top: Option<string>, limit: nat, x: Extraction, items: seq<Item>)
    requires GoodTop(top) && OrdinaryItems(items) && Placeable(items) && Build(x.tree, items).Some?
    requires x.total + FileBytes(items) <= limit < 0x8000_0000_0000_0000
    ensures ExtractAll(PrefixOf(top), limit, x, ZippedAll(TopOf(top), items)) ==
            Success(Extraction(Build(x.tree, items).value, x.total + FileBytes(items)))
    decreases |items|
  {
    hide ZippedAll, Place, Zipped, PrefixOf, TopOf, GoodTop, OrdinaryPath, ExtractEntry, ItemBytes;
    if items == [] {
      assert ZippedAll(TopOf(top), items) == [];
    } else {
      var next := Extraction(Place(x.tree, items[0].path, items[0].content).value, x.total + ItemBytes(items[0]));
      ZippedTail(TopOf(top), items);
      ZippedIsExtracted(top, limit, x, items[0]);
      ZippedIsBuilt(top, limit, next, items[1..]);
    }
  }

  lemma ZippedTail(top: Path, items: seq<Item>)
    requires Placeable(items) && items != []
    ensures ZippedAll(top, items) != [] && ZippedAll(top, items)[0] == Zipped(top, items[0])
    ensures ZippedAll(top, items)[1..] == ZippedAll(top, items[1..])
  {
  }

  lemma ZippedIsExtracted(top: Option<string>, limit: nat, x: Extraction, item: Item)
    requires GoodTop(top) && OrdinaryPath(item.path) && Place(x.tree, item.path, item.content).Some?
    requires x.total + ItemBytes(item) <= limit < 0x8000_0000_0000_0000
    ensures ExtractEntry(PrefixOf(top), limit, x, Zipped(TopOf(top), item)) ==
            Success(Extraction(Place(x.tree, item.path, item.content).value, x.total + ItemBytes(item)))
  {
    assert item.path != [];
    hide Sort, Place, Clean, Written, PrefixOf, TopOf, OrdinaryPath, GoodTop;
    ZippedIsTaken(top, item);
    ZippedSizes(TopOf(top), item);
    ZippedItem(TopOf(top), item, Written(item.path, item.content.None?));
    hide ItemOf, Zipped, ItemBytes, TakeEntry;
    TakesItem(limit, x, Zipped(TopOf(top), item), item);
  }

  lemma TakesItem(limit: nat, x: Extraction, e: Entry, item: Item)
    requires e.size == |e.content| == ItemBytes(item) && (e.kind.Directory? <==> item.content.None?)
    requires Place(x.tree, item.path, item.content).Some? && x.total + ItemBytes(item) <= limit
    ensures TakeEntry(limit, x, e, item) ==
            Success(Extraction(Place(x.tree, item.path, item.content).value, x.total + ItemBytes(item)))
  {
    hide Place;
  }

  lemma ZippedItem(top: Path, item: Item, name: string)
    requires item.path != [] && Clean(name) == item.path
    ensures ItemOf(name, Zipped(top, item)) == item
  {
    hide Written, Clean;
  }

  lemma ZippedSizes(top: Path, item: Item)
    requires item.path != []
    ensures var e := Zipped(top, item);
            && e.size == |e.content| == ItemBytes(item) && (e.kind.Directory? <==> item.content.None?)
  {
    hide Written;
  }

  /** A world of regular files within four times the upload limit is extracted from its archive
      exactly, with or without a directory of its own. */
  lemma UploadedWorldIsExtracted(tree: Forest, top: Option<string>, maxUploadBytes: nat)
    requires Configured(maxUploadBytes) && OrdinaryWorld(tree) && GoodTop(top)
    requires FileBytes(ItemsIn(tree)) <= 4 * maxUploadBytes
    ensures Extracted(ZipOf(tree, top), maxUploadBytes) == Success(tree)
  {
    var prefix, limit, none := PrefixOf(top), 4 * maxUploadBytes, Extraction(map[], 0);
    var items := ItemsIn(tree);
    ZipPrefix(tree, top);
    WorldIsOrdinary(tree, SortedNames(tree.Keys));
    WorldIsRebuilt(tree);
    hide Walk, Build, OrdinaryWorld, WorldPrefix, OrdinaryItems, Ordinary;
    ZippedIsBuilt(top, limit, none, items);
    if top.Some? {
      FolderFirst(top.value, limit, none, ZippedAll([top.value], items));
    }
    hide ExtractAll, ZippedAll, ItemsIn;
  }

  lemma FolderFirst(top: string, limit: nat, x: Extraction, entries: seq<Entry>)
    requires x.total <= limit && GoodTop(Some(top))
    ensures var folder := Entry(Written([top], true), Directory, 0, []);
            ExtractAll(PrefixOf(Some(top)), limit, x, [folder] + entries) ==
            ExtractAll(PrefixOf(Some(top)), limit, x, entries)
  {
    FolderIsSkipped(top);
    hide Sort, Written, PrefixOf, Ordinary;
    var folder := Entry(Written([top], true), Directory, 0, []);
    assert ([folder] + entries)[1..] == entries;
  }

  lemma WorldIsRebuilt(tree: Forest)
    requires OrdinaryWorld(tree)
    ensures Build(map[], ItemsIn(tree)) == Some(tree)
  {
    forall name | name in tree
      ensures Supported(tree[name])
    {
      OrdinaryIsSupported(tree[name]);
    }
    hide OrdinaryWorld;
    assert Supported(Dir(tree));
    RebuildsDirectory(Dir(tree));
  }

  lemma {:induction false} OrdinaryIsSupported(node: Node)
    requires OrdinaryNode(node)
    ensures Supported(node)
  {
    if node.Dir? {
      forall name | name in node.children
        ensures Supported(node.children[name])
      {
        OrdinaryIsSupported(node.children[name]);
      }
    }
  }
}
