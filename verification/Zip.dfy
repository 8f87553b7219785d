/** Uploaded world archives: `extractWorldZip` and `worldZipPrefix`
    (backend/internal/operations/zip.go). */
module Zip {
  import opened Text
  import opened Wrappers
  import opened Paths
  import opened Trees

  /** A ZIP entry: its name, what its mode says it is, its declared size and what reading it
      yields. */
  datatype Entry = Entry(name: string, kind: Kind, size: UInt64, content: Bytes) {
    /** What is written for a file whose content has its declared size. */
    function Body(): Contents {
      if |content| == size && size < 0x8000_0000_0000_0000 then content else []
    }
  }

  datatype ZipError =
    | UnsafePath | NotOneLevel | OutsideWorld | UnsupportedType
    | OverLimit | Collision | SizeMismatch | Interrupted

  function TrimPrefix(s: string, prefix: string): string {
    if prefix <= s then s[|prefix|..] else s
  }

  /** `filepath.Base` of a slash-separated name. */
  function Base(name: string): string {
    var parts := Split(name, '/');
    var kept := BaseParts(parts);
    if kept == [] then (if name == "" then "." else "/") else kept[|kept| - 1]
  }

  // Trailing empty parts are trailing slashes.
  function BaseParts(parts: seq<string>): seq<string> {
    if parts != [] && parts[|parts| - 1] == "" then BaseParts(parts[..|parts| - 1]) else parts
  }

  /** `filepath.Dir` of a safe relative name: its cleaned parts without the last. */
  function DirParts(name: string): Path {
    var parts := Split(name, '/');
    CleanParts(parts[..|parts| - 1], false)
  }

  function Acceptable(name: string): bool {
    '\\' !in name && SafeRelative(name)
  }

  /** The names, cleaned of "./", of the entries that are level data. */
  function LevelPaths(entries: seq<Entry>): seq<string> {
    if entries == [] then []
    else
      var cleaned := TrimPrefix(entries[0].name, "./");
      (if Base(cleaned) == "level.dat" then [cleaned] else []) + LevelPaths(entries[1..])
  }

  /** `worldZipPrefix`. */
  function WorldPrefix(entries: seq<Entry>): Result<string, ZipError> {
    if exists i :: 0 <= i < |entries| && !Acceptable(TrimPrefix(entries[i].name, "./")) then Failure(UnsafePath)
    else if |LevelPaths(entries)| != 1 then Failure(NotOneLevel)
    else
      var directory := DirParts(LevelPaths(entries)[0]);
      Success(if directory == [] then "" else Join(directory, '/') + "/")
  }

  // ---- extraction ----

  /** The bounds `Load` puts on the upload limit: 1 MiB to 20 GiB. */
  predicate Configured(maxUploadBytes: int) {
    0x10_0000 <= maxUploadBytes <= 0x5_0000_0000
  }

  predicate Junk(name: string) {
    "__MACOSX/" <= name || Base(name) == ".DS_Store"
  }

  /** What the extraction loop does with an entry before any size or file-system check. */
  datatype Sorting = Skip | Reject(error: ZipError) | Take(name: string)

  function Sort(prefix: string, e: Entry): Sorting {
    if prefix != "" && !(prefix <= e.name) then (if Junk(e.name) then Skip else Reject(OutsideWorld))
    else
      var name := TrimPrefix(TrimPrefix(e.name, prefix), "/");
      if name == "" || Junk(name) then Skip
      else if '\\' in name || !SafeRelative(name) then Reject(UnsafePath)
      else if e.kind.Unsupported? then Reject(UnsupportedType)
      else Take(name)
  }

  datatype Extraction = Extraction(tree: Forest, total: nat)

  /** The item an accepted entry stands for, at its path inside the world. */
  function ItemOf(name: string, e: Entry): Item {
    Item(Clean(name), if e.kind.Directory? then None else Some(e.Body()))
  }

  /** The checks and writes for an accepted entry. */
  function TakeEntry(limit: nat, x: Extraction, e: Entry, item: Item): (r: Result<Extraction, ZipError>)
    requires x.total <= limit
    ensures r.Success? ==> r.value.total <= limit
  {
    if e.size > limit - x.total then Failure(OverLimit)
    else
      var next := Place(x.tree, item.path, item.content);
      if next.None? then Failure(Collision)
      else if !e.kind.Directory? && |e.content| != e.size then Failure(SizeMismatch)
      else Success(Extraction(next.value, x.total + e.size))
  }

  function ExtractEntry(prefix: string, limit: nat, x: Extraction, e: Entry): (r: Result<Extraction, ZipError>)
    requires x.total <= limit
    ensures r.Success? ==> r.value.total <= limit
  {
    match Sort(prefix, e)
    case Skip => Success(x)
    case Reject(error) => Failure(error)
    case Take(name) => TakeEntry(limit, x, e, ItemOf(name, e))
  }

  function ExtractAll(prefix: string, limit: nat, x: Extraction, entries: seq<Entry>): (r: Result<Extraction, ZipError>)
    requires x.total <= limit
    ensures r.Success? ==> r.value.total <= limit
    decreases |entries|
  {
    if entries == [] then Success(x)
    else
      var next := ExtractEntry(prefix, limit, x, entries[0]);
      if next.Failure? then next else ExtractAll(prefix, limit, next.value, entries[1..])
  }

  /** The world a ZIP archive yields. */
  function Extracted(entries: seq<Entry>, maxUploadBytes: nat): Result<Forest, ZipError> {
    match WorldPrefix(entries)
    case Failure(e) => Failure(e)
    case Success(prefix) =>
      match ExtractAll(prefix, 4 * maxUploadBytes, Extraction(map[], 0), entries)
      case Success(x) => Success(x.tree)
      case Failure(e) => Failure(e)
  }

  /** `worldZipPrefix`. */
  method WorldZipPrefix(entries: seq<Entry>) returns (r: Result<string, ZipError>)
    ensures r == WorldPrefix(entries)
  {
    hide Base, SafeRelative, TrimPrefix, DirParts;
    var levelPaths := [];
    for i := 0 to |entries|
      invariant forall j | 0 <= j < i :: Acceptable(TrimPrefix(entries[j].name, "./"))
      invariant LevelPaths(entries) == levelPaths + LevelPaths(entries[i..])
    {
      var cleaned := TrimPrefix(entries[i].name, "./");
      if '\\' in cleaned || !SafeRelative(cleaned) {
        assert !Acceptable(TrimPrefix(entries[i].name, "./"));
        return Failure(UnsafePath);
      }
      assert entries[i..][1..] == entries[i + 1..];
      if Base(cleaned) == "level.dat" {
        levelPaths := levelPaths + [cleaned];
      }
    }
    if |levelPaths| != 1 {
      return Failure(NotOneLevel);
    }
    var directory := DirParts(levelPaths[0]);
    return Success(if directory == [] then "" else Join(directory, '/') + "/");
  }

  /** `extractWorldZip` into an empty world directory: unless it is interrupted, the fold over
      all entries. No 64-bit computation on the way wraps around. */
  method ExtractWorldZip(entries: seq<Entry>, maxUploadBytes: Int64, interrupted: nat -> bool)
    returns (r: Result<Forest, ZipError>)
    requires Configured(maxUploadBytes)
    ensures r == Failure(Interrupted) || r == Extracted(entries, maxUploadBytes)
    ensures r == Failure(Interrupted) ==> exists k :: interrupted(k)
  {
    hide WorldPrefix, Sort, TakeEntry, ItemOf, SafeRelative;
    var found := WorldZipPrefix(entries);
    NoPrefixFailureIsInterruption(entries);
    if found.Failure? {
      return Failure(found.error);
    }
    var prefix := found.value;
    var x := Extraction(map[], 0);
    var i := 0;
    while i < |entries|
      invariant 0 <= i <= |entries| && x.total <= 4 * maxUploadBytes
      invariant ExtractAll(prefix, 4 * maxUploadBytes, Extraction(map[], 0), entries) ==
                ExtractAll(prefix, 4 * maxUploadBytes, x, entries[i..])
    {
      if interrupted(i) {
        return Failure(Interrupted);
      }
      var e := entries[i];
      var sorting := Sort(prefix, e);
      if sorting.Reject? {
        NoSortingIsInterruption(prefix, e);
        return Failure(sorting.error);
      }
      if sorting.Take? {
        TakenIsSafe(prefix, e);
        var next := ExtractOne(e, sorting.name, x.tree, x.total, maxUploadBytes);
        if next.Failure? {
          return Failure(next.error);
        }
        x := next.value;
      }
      i := i + 1;
    }
    return Success(x.tree);
  }

  /** The body of the extraction loop from the size check on. */
  method ExtractOne(e: Entry, name: string, tree: Forest, total: UInt64, maxUploadBytes: Int64)
    returns (r: Result<Extraction, ZipError>)
    requires Configured(maxUploadBytes) && total <= 4 * maxUploadBytes && SafeRelative(name)
    ensures r == TakeEntry(4 * maxUploadBytes, Extraction(tree, total), e, ItemOf(name, e))
    ensures r != Failure(Interrupted)
  {
    hide Place, Clean, SafeRelative, JoinUnder, Contained, ValidPath;
    var limit: UInt64 := maxUploadBytes * 4;
    var room: UInt64 := limit - total;
    if e.size > room {
      return Failure(OverLimit);
    }
    var newTotal: UInt64 := total + e.size;
    var root := ["staging", "world"];
    TargetIsInside(root, name);
    var target := JoinUnder(root, name);
    if !Contained(root, target) {
      return Failure(UnsafePath);
    }
    var relative := target[|root|..];
    if e.kind.Directory? {
      var made := Place(tree, relative, None);
      if made.None? {
        return Failure(Collision);
      }
      return Success(Extraction(made.value, newTotal));
    }
    var most: Int64 := e.size + 1;
    var written: Int64 := if |e.content| <= most then |e.content| else most;
    var made := Place(tree, relative, Some(e.Body()));
    if made.None? {
      return Failure(Collision);
    }
    if written != e.size {
      return Failure(SizeMismatch);
    }
    return Success(Extraction(made.value, newTotal));
  }

  lemma TargetIsInside(root: Path, name: string)
    requires AllPlain(root) && SafeRelative(name)
    ensures Contained(root, JoinUnder(root, name))
    ensures |root| <= |JoinUnder(root, name)| && JoinUnder(root, name)[|root|..] == Clean(name)
  {
    SafeRelativeIsContained(root, name);
    hide JoinUnder, Clean, SafeRelative, Contained;
  }

  lemma NoPrefixFailureIsInterruption(entries: seq<Entry>)
    ensures WorldPrefix(entries) != Failure(Interrupted)
  {
  }

  lemma NoSortingIsInterruption(prefix: string, e: Entry)
    ensures Sort(prefix, e) != Reject(Interrupted)
  {
  }

  lemma TakenIsSafe(prefix: string, e: Entry)
    requires Sort(prefix, e).Take?
    ensures SafeRelative(Sort(prefix, e).name) && !e.kind.Unsupported?
  {
  }

  // ---- what a successful extraction holds ----

  /** The items of the accepted entries, re-rooted below the world directory. */
  function Taken(prefix: string, entries: seq<Entry>): seq<Item> {
    if entries == [] then []
    else if Sort(prefix, entries[0]).Take?
    then [ItemOf(Sort(prefix, entries[0]).name, entries[0])] + Taken(prefix, entries[1..])
    else Taken(prefix, entries[1..])
  }

  /** The sizes that accepted directory entries declare. */
  function DirectoryBytes(prefix: string, entries: seq<Entry>): nat {
    if entries == [] then 0
    else (if Sort(prefix, entries[0]).Take? && entries[0].kind.Directory? then entries[0].size else 0) +
         DirectoryBytes(prefix, entries[1..])
  }

  lemma {:induction false} ExtractionIsSound(prefix: string, limit: nat, x: Extraction, entries: seq<Entry>)
    requires x.total <= limit < 0x8000_0000_0000_0000 && ExtractAll(prefix, limit, x, entries).Success?
    ensures Build(x.tree, Taken(prefix, entries)) == Some(ExtractAll(prefix, limit, x, entries).value.tree)
    ensures ExtractAll(prefix, limit, x, entries).value.total ==
            x.total + FileBytes(Taken(prefix, entries)) + DirectoryBytes(prefix, entries)
    decreases |entries|
  {
    hide Sort, ItemOf, TakeEntry, Place;
    if entries != [] {
      var e := entries[0];
      var next := ExtractEntry(prefix, limit, x, e).value;
      ExtractionIsSound(prefix, limit, next, entries[1..]);
      if Sort(prefix, e).Take? {
        var item := ItemOf(Sort(prefix, e).name, e);
        TakeIsPlace(limit, x, e, Sort(prefix, e).name);
        assert Taken(prefix, entries)[1..] == Taken(prefix, entries[1..]);
      }
    }
  }

  lemma TakeIsPlace(limit: nat, x: Extraction, e: Entry, name: string)
    requires x.total <= limit < 0x8000_0000_0000_0000 && TakeEntry(limit, x, e, ItemOf(name, e)).Success?
    ensures var item, next := ItemOf(name, e), TakeEntry(limit, x, e, ItemOf(name, e)).value;
            && Place(x.tree, item.path, item.content) == Some(next.tree)
            && next.total == x.total + ItemBytes(item) + (if e.kind.Directory? then e.size else 0)
  {
    hide Place, Clean;
  }

  /** On success the world holds exactly the files of the accepted entries, each once and below
      the world directory; the running total never passed four times the upload limit; and the
      bytes written are the total if and only if no accepted directory entry declares a size. */
  lemma ExtractedWorldIsTheArchive(prefix: string, limit: nat, entries: seq<Entry>, at: Path, data: Contents)
    requires limit < 0x8000_0000_0000_0000 && ExtractAll(prefix, limit, Extraction(map[], 0), entries).Success?
    ensures var x := ExtractAll(prefix, limit, Extraction(map[], 0), entries).value;
            var items := Taken(prefix, entries);
            && (FileAt(x.tree, at) == Some(data) <==> Item(at, Some(data)) in items)
            && FilesDistinct(items)
            && FileBytes(items) <= x.total <= limit
            && (FileBytes(items) == x.total <==> DirectoryBytes(prefix, entries) == 0)
  {
    assert FileAt(map[], at).None?;
    hide ExtractAll, ExtractEntry, Build, Place, FileAt, Taken, DirectoryBytes;
    ExtractionIsSound(prefix, limit, Extraction(map[], 0), entries);
    BuildHoldsItems(map[], Taken(prefix, entries), at, data);
    BuildFilesDistinct(map[], Taken(prefix, entries));
  }

  lemma {:induction false} NothingIsRejected(prefix: string, limit: nat, x: Extraction, entries: seq<Entry>, i: nat)
    requires x.total <= limit && i < |entries| && ExtractAll(prefix, limit, x, entries).Success?
    ensures !Sort(prefix, entries[i]).Reject?
    ensures Sort(prefix, entries[i]).Take? ==>
      ItemOf(Sort(prefix, entries[i]).name, entries[i]) in Taken(prefix, entries) &&
      (!entries[i].kind.Directory? ==> |entries[i].content| == entries[i].size <= limit)
    decreases |entries|
  {
    hide Sort, ItemOf, Place;
    if i > 0 {
      NothingIsRejected(prefix, limit, ExtractEntry(prefix, limit, x, entries[0]).value, entries[1..], i - 1);
      assert entries[1..][i - 1] == entries[i];
    }
  }

  /** The name of an entry inside the world. */
  function Inside(prefix: string, e: Entry): string
    requires prefix <= e.name
  {
    var rest := e.name[|prefix|..];
    if rest != "" && rest[0] == '/' then rest[1..] else rest
  }

  /** A file that a resource fork or a desktop leaves behind. */
  predicate Fork(name: string) {
    (|name| >= 9 && name[..9] == "__MACOSX/") || Base(name) == ".DS_Store"
  }

  /** After a successful extraction nothing was lost or let through: outside the world's directory
      there are resource forks only; inside it every other entry is a directory or a regular file,
      under a name without backslashes that stays inside; and every such file is in the world, with
      its whole content of the declared size. */
  lemma ExtractionHoldsEveryFile(prefix: string, limit: nat, entries: seq<Entry>, i: nat)
    requires limit < 0x8000_0000_0000_0000 && i < |entries|
    requires ExtractAll(prefix, limit, Extraction(map[], 0), entries).Success?
    ensures var e, tree := entries[i], ExtractAll(prefix, limit, Extraction(map[], 0), entries).value.tree;
      if !(prefix <= e.name) then Fork(e.name)
      else Inside(prefix, e) == "" || Fork(Inside(prefix, e)) ||
           (&& '\\' !in Inside(prefix, e) && SafeRelative(Inside(prefix, e)) && !e.kind.Unsupported?
            && (e.kind.Regular? ==>
                  |e.content| == e.size && FileAt(tree, Clean(Inside(prefix, e))) == Some(e.content)))
  {
    var e, none := entries[i], Extraction(map[], 0);
    NothingIsRejected(prefix, limit, none, entries, i);
    SortedInside(prefix, e);
    hide Sort, ExtractAll, Fork, Inside, SafeRelative, Clean;
    if prefix <= e.name && Sort(prefix, e).Take? && e.kind.Regular? {
      TakenIsWritten(prefix, limit, entries, e, Inside(prefix, e));
    }
  }

  lemma TakenIsWritten(prefix: string, limit: nat, entries: seq<Entry>, e: Entry, name: string)
    requires limit < 0x8000_0000_0000_0000 && ExtractAll(prefix, limit, Extraction(map[], 0), entries).Success?
    requires ItemOf(name, e) in Taken(prefix, entries) && e.kind.Regular? && |e.content| == e.size <= limit
    ensures FileAt(ExtractAll(prefix, limit, Extraction(map[], 0), entries).value.tree, Clean(name)) == Some(e.content)
  {
    hide ExtractAll, Clean, Taken;
    assert e.Body() == e.content;
    ExtractedWorldIsTheArchive(prefix, limit, entries, Clean(name), e.content);
  }

  lemma SortedInside(prefix: string, e: Entry)
    ensures !(prefix <= e.name) && !Sort(prefix, e).Reject? ==> Fork(e.name)
    ensures prefix <= e.name && Sort(prefix, e).Skip? ==> Inside(prefix, e) == "" || Fork(Inside(prefix, e))
    ensures prefix <= e.name && Sort(prefix, e).Take? ==>
      && Sort(prefix, e).name == Inside(prefix, e) && '\\' !in Inside(prefix, e) && SafeRelative(Inside(prefix, e))
      && !e.kind.Unsupported? && Inside(prefix, e) != "" && !Fork(Inside(prefix, e))
  {
    hide SafeRelative, Base;
    assert e.name[0..] == e.name;
    assert forall name: string :: "__MACOSX/" <= name <==> |name| >= 9 && name[..9] == "__MACOSX/";
  }

  /** And nothing else is in the world: every file there is that of a regular entry inside the
      world's directory that is no resource fork. */
  lemma EveryFileIsFromTheArchive(prefix: string, limit: nat, entries: seq<Entry>, at: Path, data: Contents)
    returns (i: nat)
    requires limit < 0x8000_0000_0000_0000 && ExtractAll(prefix, limit, Extraction(map[], 0), entries).Success?
    requires FileAt(ExtractAll(prefix, limit, Extraction(map[], 0), entries).value.tree, at) == Some(data)
    ensures i < |entries| && prefix <= entries[i].name && entries[i].kind.Regular? && entries[i].content == data
    ensures var name := Inside(prefix, entries[i]); name != "" && !Fork(name) && Clean(name) == at
  {
    hide ExtractAll, FileAt, Clean, Fork, Inside, Sort;
    ExtractedWorldIsTheArchive(prefix, limit, entries, at, data);
    i := TakenComesFrom(prefix, entries, Item(at, Some(data)));
    var e := entries[i];
    NothingIsRejected(prefix, limit, Extraction(map[], 0), entries, i);
    SortedInside(prefix, e);
    assert prefix <= e.name by {
      TakenIsBelowPrefix(prefix, e);
    }
  }

  lemma {:induction false} TakenComesFrom(prefix: string, entries: seq<Entry>, item: Item) returns (i: nat)
    requires item in Taken(prefix, entries)
    ensures i < |entries| && Sort(prefix, entries[i]).Take?
    ensures item == ItemOf(Sort(prefix, entries[i]).name, entries[i])
    decreases |entries|
  {
    hide Sort, ItemOf;
    if Sort(prefix, entries[0]).Take? && item == ItemOf(Sort(prefix, entries[0]).name, entries[0]) {
      return 0;
    }
    i := TakenComesFrom(prefix, entries[1..], item);
    assert entries[1..][i] == entries[i + 1];
    i := i + 1;
  }

  /** Every accepted entry lies below the directory of the level data: its name is that
      directory's prefix, an optional slash, and its name inside the world. */
  lemma TakenIsBelowPrefix(prefix: string, e: Entry)
    requires Sort(prefix, e).Take?
    ensures e.name == prefix + Sort(prefix, e).name || e.name == prefix + "/" + Sort(prefix, e).name
    ensures ValidPath(Clean(Sort(prefix, e).name))
  {
    SafeRelativeIsContained([], Sort(prefix, e).name);
    var inner := TrimPrefix(e.name, prefix);
    assert prefix <= e.name;
    assert e.name == prefix + inner;
    if "/" <= inner {
      assert inner == "/" + inner[1..];
    }
  }
}
