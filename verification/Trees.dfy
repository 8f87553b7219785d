/** Directory trees on disk and the order in which `filepath.WalkDir` visits them. */
module Trees {
  import opened Text
  import opened Wrappers
  import opened Paths

  type Forest = map<string, Node>

  /** A directory entry; `Special` stands for links, devices, sockets and pipes. */
  datatype Node = File(data: Contents) | Dir(children: Forest) | Special

  /** What an archive entry says it is. */
  datatype Kind = Regular | Directory | Unsupported

  /** Names are ones a directory can hold, at every level. */
  ghost predicate WellNamed(node: Node) {
    node.Dir? ==>
      forall name | name in node.children :: ValidName(name) && WellNamed(node.children[name])
  }

  /** Only regular files and directories. */
  ghost predicate Supported(node: Node) {
    match node
    case File(_) => true
    case Dir(children) => forall name | name in children :: Supported(children[name])
    case Special => false
  }

  /** What one visited entry says about its place in the tree. */
  datatype Item = Item(path: Path, content: Option<Contents>)

  function Lift(prefix: Path, items: seq<Item>): (lifted: seq<Item>)
    ensures |lifted| == |items|
  {
    seq(|items|, i requires 0 <= i < |items| => items[i].(path := prefix + items[i].path))
  }

  lemma LiftConcat(prefix: Path, a: seq<Item>, b: seq<Item>)
    ensures Lift(prefix, a + b) == Lift(prefix, a) + Lift(prefix, b)
  {
  }

  lemma LiftLift(outer: Path, inner: Path, items: seq<Item>)
    ensures Lift(outer, Lift(inner, items)) == Lift(outer + inner, items)
  {
    forall i | 0 <= i < |items|
      ensures Lift(outer, Lift(inner, items))[i] == Lift(outer + inner, items)[i]
    {
      assert outer + (inner + items[i].path) == outer + inner + items[i].path;
    }
  }

  // ---- lexical order of a directory ----

  predicate IsFirst(names: set<string>, first: string) {
    first in names && forall n | n in names :: n == first || Less(first, n)
  }

  lemma {:induction false} LeastName(names: set<string>) returns (least: string)
    requires names != {}
    ensures IsFirst(names, least)
  {
    var some :| some in names;
    if names == {some} {
      least := some;
    } else {
      least := LeastName(names - {some});
      LessTotal(least, some);
      if Less(some, least) {
        forall n | n in names && n != some
          ensures Less(some, n)
        {
          if n != least {
            LessTransitive(some, least, n);
          }
        }
        least := some;
      }
    }
  }

  lemma LeastNameExists(names: set<string>)
    requires names != {}
    ensures exists least :: IsFirst(names, least)
  {
    var least := LeastName(names);
  }

  lemma FirstIsUnique(names: set<string>)
    ensures forall a, b | IsFirst(names, a) && IsFirst(names, b) :: a == b
  {
    forall a, b | IsFirst(names, a) && IsFirst(names, b)
      ensures a == b
    {
      if a != b {
        LessAsymmetric(a, b);
      }
    }
  }

  function FirstName(names: set<string>): (first: string)
    requires names != {}
    ensures IsFirst(names, first)
  {
    LeastNameExists(names);
    FirstIsUnique(names);
    var first :| IsFirst(names, first);
    first
  }

  /** The names of a directory in lexical order, as `os.ReadDir` lists them. */
  function SortedNames(names: set<string>): (sorted: seq<string>)
    ensures forall n :: n in sorted <==> n in names
    ensures |sorted| == |names|
    ensures forall i, j :: 0 <= i < j < |sorted| ==> Less(sorted[i], sorted[j])
  {
    if names == {} then []
    else
      var first := FirstName(names);
      [first] + SortedNames(names - {first})
  }

  lemma SortedNamesDistinct(names: set<string>)
    ensures Distinct(SortedNames(names))
  {
    var sorted := SortedNames(names);
    forall i, j | 0 <= i < j < |sorted|
      ensures sorted[i] != sorted[j]
    {
      LessAsymmetric(sorted[i], sorted[j]);
    }
  }

  // ---- the walk ----

  /** The entries visited for the named children of `dir`, in the given order. */
  function Walk(dir: Node, names: seq<string>): seq<Item>
    requires dir.Dir? && forall n | n in names :: n in dir.children
    decreases dir, 0, |names|
  {
    if names == [] then []
    else WalkNode(names[0], dir.children[names[0]]) + Walk(dir, names[1..])
  }

  /** The entries visited at and below one child: itself first, then what it holds. */
  function WalkNode(name: string, node: Node): seq<Item>
    decreases node, 1, 0
  {
    match node
    case File(data) => [Item([name], Some(data))]
    case Dir(children) =>
      [Item([name], None)] + Lift([name], Walk(node, SortedNames(children.Keys)))
    case Special => []
  }

  // ---- rebuilding a tree from entries ----

  /** `os.MkdirAll` for a directory (no content), or `MkdirAll` of the parent followed by
      an exclusive create for a file. `None` is a collision: the file exists already, or a
      file stands where a directory is needed. */
  function Place(forest: Forest, path: Path, content: Option<Contents>): Option<Forest>
    decreases |path|
  {
    if path == [] then None else
    var name := path[0];
    if |path| == 1 then
      if name !in forest then
        Some(forest[name := if content.Some? then File(content.value) else Dir(map[])])
      else if content.None? && forest[name].Dir? then Some(forest)
      else None
    else if name in forest && !forest[name].Dir? then None
    else
      var below := Place(if name in forest then forest[name].children else map[], path[1..], content);
      if below.None? then None else Some(forest[name := Dir(below.value)])
  }

  predicate Placeable(items: seq<Item>) {
    forall i | 0 <= i < |items| :: items[i].path != []
  }

  function Build(forest: Forest, items: seq<Item>): Option<Forest>
    decreases |items|
  {
    if items == [] then Some(forest)
    else
      var next := Place(forest, items[0].path, items[0].content);
      if next.None? then None else Build(next.value, items[1..])
  }

  lemma {:induction false} BuildConcat(forest: Forest, a: seq<Item>, b: seq<Item>)
    ensures Build(forest, a + b) ==
            (if Build(forest, a).None? then None else Build(Build(forest, a).value, b))
    decreases |a|
  {
    if a == [] {
      assert a + b == b;
    } else {
      assert (a + b)[1..] == a[1..] + b;
      var next := Place(forest, a[0].path, a[0].content);
      if next.Some? {
        BuildConcat(next.value, a[1..], b);
      }
    }
  }

  /** Entries below one directory only touch that directory. */
  lemma {:induction false} BuildBelow(forest: Forest, name: string, items: seq<Item>)
    requires name in forest && forest[name].Dir? && Placeable(items)
    ensures Build(forest, Lift([name], items)) ==
            var below := Build(forest[name].children, items);
            if below.None? then None else Some(forest[name := Dir(below.value)])
    decreases |items|
  {
    var lifted := Lift([name], items);
    if items == [] {
      assert forest == forest[name := Dir(forest[name].children)];
    } else {
      assert lifted[0].path[1..] == items[0].path;
      assert lifted[1..] == Lift([name], items[1..]);
      var step := Place(forest[name].children, items[0].path, items[0].content);
      if step.Some? {
        var next := forest[name := Dir(step.value)];
        BuildBelow(next, name, items[1..]);
        forall below: Forest
          ensures next[name := Dir(below)] == forest[name := Dir(below)]
        {
        }
      }
    }
  }

  lemma {:induction false} WalkIsPlaceable(dir: Node, names: seq<string>)
    requires dir.Dir? && forall n | n in names :: n in dir.children
    ensures Placeable(Walk(dir, names))
    decreases dir, 0, |names|
  {
    if names != [] {
      var node := dir.children[names[0]];
      assert Walk(dir, names) == WalkNode(names[0], node) + Walk(dir, names[1..]);
      hide Walk, SortedNames;
      WalkIsPlaceable(dir, names[1..]);
      NodeIsPlaceable(names[0], node);
    }
  }

  lemma NodeIsPlaceable(name: string, node: Node)
    ensures Placeable(WalkNode(name, node))
  {
    hide Walk, SortedNames;
  }

  function Select(forest: Forest, names: seq<string>): Forest {
    map n | n in names && n in forest :: forest[n]
  }

  lemma SelectStep(forest: Forest, from: Forest, names: seq<string>)
    requires names != [] && names[0] in from
    ensures forest[names[0] := from[names[0]]] + Select(from, names[1..]) == forest + Select(from, names)
  {
    assert forall n :: n in names <==> n == names[0] || n in names[1..];
  }

  /** Rebuilding the walk of some children adds exactly those children. */
  lemma {:induction false} RebuildsWalk(forest: Forest, dir: Node, names: seq<string>)
    requires dir.Dir? && forall n | n in names :: n in dir.children && n !in forest
    requires Distinct(names)
    requires forall n | n in names :: Supported(dir.children[n])
    ensures Build(forest, Walk(dir, names)) == Some(forest + Select(dir.children, names))
    decreases dir, 0, |names|
  {
    if names == [] {
      assert forest + Select(dir.children, names) == forest;
    } else {
      var name, rest := names[0], names[1..];
      var head := WalkNode(name, dir.children[name]);
      var next := forest[name := dir.children[name]];
      RebuildsNode(forest, name, dir.children[name]);
      BuildConcat(forest, head, Walk(dir, rest));
      RebuildsWalk(next, dir, rest);
      SelectStep(forest, dir.children, names);
    }
  }

  lemma {:induction false} RebuildsNode(forest: Forest, name: string, node: Node)
    requires name !in forest && Supported(node)
    ensures Build(forest, WalkNode(name, node)) == Some(forest[name := node])
    decreases node, 2
  {
    match node
    case File(data) =>
      BuildsFile(forest, name, data);
    case Dir(children) =>
      RebuildsDirectory(node);
      WalkIsPlaceable(node, SortedNames(children.Keys));
      BuildsDirectory(forest, name, children, Walk(node, SortedNames(children.Keys)));
  }

  lemma {:induction false} RebuildsDirectory(dir: Node)
    requires dir.Dir? && Supported(dir)
    ensures Build(map[], Walk(dir, SortedNames(dir.children.Keys))) == Some(dir.children)
    decreases dir, 1
  {
    hide Walk, WalkNode, Build, SortedNames;
    SortedNamesDistinct(dir.children.Keys);
    RebuildsWalk(map[], dir, SortedNames(dir.children.Keys));
    SelectAll(dir.children, SortedNames(dir.children.Keys));
  }

  lemma SelectAll(forest: Forest, names: seq<string>)
    ensures map[] + Select(forest, names) == Select(forest, names)
    ensures (forall n :: n in forest ==> n in names) ==> Select(forest, names) == forest
  {
  }

  lemma BuildsFile(forest: Forest, name: string, data: Contents)
    requires name !in forest
    ensures Build(forest, [Item([name], Some(data))]) == Some(forest[name := File(data)])
  {
    var items := [Item([name], Some(data))];
    assert items[1..] == [];
    assert Place(forest, items[0].path, items[0].content) == Some(forest[name := File(data)]);
  }

  // A directory entry, then the entries that fill it.
  lemma BuildsDirectory(forest: Forest, name: string, children: Forest, inner: seq<Item>)
    requires name !in forest && Placeable(inner) && Build(map[], inner) == Some(children)
    ensures Build(forest, [Item([name], None)] + Lift([name], inner)) == Some(forest[name := Dir(children)])
  {
    var items := [Item([name], None)] + Lift([name], inner);
    var start := forest[name := Dir(map[])];
    assert items[1..] == Lift([name], inner);
    assert Place(forest, items[0].path, items[0].content) == Some(start);
    BuildBelow(start, name, inner);
    assert start[name := Dir(children)] == forest[name := Dir(children)];
  }

  // ---- what a rebuilt tree holds ----

  /** The content of the regular file at `path`, if there is one. */
  function FileAt(forest: Forest, path: Path): Option<Contents>
    decreases |path|
  {
    if path == [] || path[0] !in forest then None
    else
      match forest[path[0]]
      case File(data) => if |path| == 1 then Some(data) else None
      case Dir(children) => FileAt(children, path[1..])
      case Special => None
  }

  /** Placing an entry changes one file at most, and only creates it. */
  lemma {:induction false} PlaceChangesOneFile(forest: Forest, path: Path, content: Option<Contents>, at: Path)
    requires Place(forest, path, content).Some?
    ensures content.Some? ==> FileAt(forest, path).None?
    ensures FileAt(Place(forest, path, content).value, at) ==
            if content.Some? && at == path then content else FileAt(forest, at)
    decreases |path|
  {
    var after := Place(forest, path, content).value;
    if |path| > 1 {
      var below := if path[0] in forest then forest[path[0]].children else map[];
      var tail := if at == [] then [] else at[1..];
      PlaceChangesOneFile(below, path[1..], content, tail);
      assert at != [] ==> (at == path <==> at[0] == path[0] && tail == path[1..]) by {
        assert path == [path[0]] + path[1..];
        assert at != [] ==> at == [at[0]] + at[1..];
      }
    } else {
      assert path == [path[0]];
      assert at != [] ==> at == [at[0]] + at[1..];
    }
  }

  /** No two file entries name the same path. */
  predicate FilesDistinct(items: seq<Item>) {
    forall i, j :: 0 <= i < j < |items| && items[i].content.Some? && items[j].content.Some? ==>
      items[i].path != items[j].path
  }

  /** A built tree holds the files it started with and those of its entries, no others. */
  lemma {:induction false} BuildHoldsItems(forest: Forest, items: seq<Item>, at: Path, data: Contents)
    requires Build(forest, items).Some?
    ensures FileAt(Build(forest, items).value, at) == Some(data) <==>
            FileAt(forest, at) == Some(data) || Item(at, Some(data)) in items
    ensures FileAt(forest, at).Some? ==> FileAt(Build(forest, items).value, at) == FileAt(forest, at)
    decreases |items|
  {
    if items != [] {
      PlaceChangesOneFile(forest, items[0].path, items[0].content, at);
      BuildHoldsItems(Place(forest, items[0].path, items[0].content).value, items[1..], at, data);
      assert items == [items[0]] + items[1..];
    }
  }

  /** Exclusive creation: a successful build never sees a file path twice. */
  lemma {:induction false} BuildFilesDistinct(forest: Forest, items: seq<Item>)
    requires Build(forest, items).Some?
    ensures FilesDistinct(items)
    ensures forall i :: 0 <= i < |items| && items[i].content.Some? ==> FileAt(forest, items[i].path).None?
    decreases |items|
  {
    if items != [] {
      var next := Place(forest, items[0].path, items[0].content).value;
      BuildFilesDistinct(next, items[1..]);
      forall i | 0 <= i < |items| && items[i].content.Some?
        ensures FileAt(forest, items[i].path).None?
        ensures i > 0 && items[0].content.Some? ==> items[i].path != items[0].path
      {
        PlaceChangesOneFile(forest, items[0].path, items[0].content, items[i].path);
        assert i > 0 ==> items[i] == items[1..][i - 1];
      }
      forall i, j | 0 <= i < j < |items| && items[i].content.Some? && items[j].content.Some?
        ensures items[i].path != items[j].path
      {
        if i > 0 {
          assert items[i] == items[1..][i - 1] && items[j] == items[1..][j - 1];
        }
      }
    }
  }

  /** The bytes of the files among some entries. */
  function ItemBytes(item: Item): nat {
    if item.content.Some? then |item.content.value| else 0
  }

  function FileBytes(items: seq<Item>): nat {
    if items == [] then 0 else ItemBytes(items[0]) + FileBytes(items[1..])
  }

  // ---- parents precede children ----

  function Parent(path: Path): Item
    requires path != []
  {
    Item(path[..|path| - 1], None)
  }

  /** The entry is at the top, or its parent directory comes earlier in the list. */
  ghost predicate HasParent(items: seq<Item>, i: nat) {
    i < |items| && (|items[i].path| > 1 ==> exists j :: 0 <= j < i && items[j] == Parent(items[i].path))
  }

  ghost predicate ParentsFirst(items: seq<Item>) {
    forall i | 0 <= i < |items| :: HasParent(items, i)
  }

  lemma {:induction false} WalkConcat(dir: Node, a: seq<string>, b: seq<string>)
    requires dir.Dir? && (forall n | n in a :: n in dir.children) && (forall n | n in b :: n in dir.children)
    ensures Walk(dir, a + b) == Walk(dir, a) + Walk(dir, b)
    decreases |a|
  {
    if a == [] {
      assert a + b == b;
    } else {
      assert (a + b)[1..] == a[1..] + b;
      WalkConcat(dir, a[1..], b);
    }
  }

  lemma {:induction false} WalkParentsFirst(dir: Node, names: seq<string>)
    requires dir.Dir? && forall n | n in names :: n in dir.children
    ensures ParentsFirst(Walk(dir, names))
    decreases dir, 0, |names|
  {
    if names != [] {
      NodeParentsFirst(names[0], dir.children[names[0]]);
      WalkParentsFirst(dir, names[1..]);
      ParentsFirstConcat(WalkNode(names[0], dir.children[names[0]]), Walk(dir, names[1..]));
    }
  }

  lemma ParentsFirstConcat(a: seq<Item>, b: seq<Item>)
    requires ParentsFirst(a) && ParentsFirst(b)
    ensures ParentsFirst(a + b)
  {
    hide Parent;
    forall i | 0 <= i < |a + b|
      ensures HasParent(a + b, i)
    {
      if i < |a| {
        assert HasParent(a, i);
        if |a[i].path| > 1 {
          var j :| 0 <= j < i && a[j] == Parent(a[i].path);
          assert (a + b)[j] == a[j];
        }
      } else {
        assert HasParent(b, i - |a|);
        if |b[i - |a|].path| > 1 {
          var j :| 0 <= j < i - |a| && b[j] == Parent(b[i - |a|].path);
          assert (a + b)[|a| + j] == b[j];
        }
      }
    }
  }

  lemma {:induction false} NodeParentsFirst(name: string, node: Node)
    ensures ParentsFirst(WalkNode(name, node))
    decreases node, 1, 0
  {
    if node.Dir? {
      WalkParentsFirst(node, SortedNames(node.children.Keys));
      WalkIsPlaceable(node, SortedNames(node.children.Keys));
      DirectoryParentsFirst(name, Walk(node, SortedNames(node.children.Keys)));
    }
  }

  lemma DirectoryParentsFirst(name: string, inner: seq<Item>)
    requires ParentsFirst(inner) && Placeable(inner)
    ensures ParentsFirst([Item([name], None)] + Lift([name], inner))
  {
    var items := [Item([name], None)] + Lift([name], inner);
    assert HasParent(items, 0);
    forall i | 0 < i < |items|
      ensures HasParent(items, i)
    {
      assert HasParent(inner, i - 1);
      InnerHasParent(name, inner, i - 1);
    }
    hide HasParent;
  }

  lemma InnerHasParent(name: string, inner: seq<Item>, k: nat)
    requires HasParent(inner, k) && Placeable(inner)
    ensures HasParent([Item([name], None)] + Lift([name], inner), k + 1)
  {
    var items := [Item([name], None)] + Lift([name], inner);
    var path := inner[k].path;
    assert items[k + 1].path == [name] + path;
    assert Parent([name] + path) == Item([name] + path[..|path| - 1], None);
    if |path| == 1 {
      assert items[0] == Parent([name] + path);
    } else {
      var j :| 0 <= j < k && inner[j] == Parent(path);
      assert items[j + 1] == Parent([name] + path);
    }
  }
}
