/** Where the level data of an uploaded world ends up: what `worldZipPrefix` and the loop of
    `extractWorldZip` together do with the entry they both look for
    (backend/internal/operations/zip.go). */
module ZipLevel {
  import opened Text
  import opened Wrappers
  import opened Paths
  import opened Trees
  import opened Zip

  // ---- names ----

  lemma {:induction false} LastPart(s: string)
    ensures Split(s, '/')[|Split(s, '/')| - 1] == "" <==> s == "" || s[|s| - 1] == '/'
  {
    if s != [] {
      LastPart(s[1..]);
    }
  }

  /** The base of a name that does not end in a slash is its last part. */
  lemma BaseIsLast(name: string)
    requires name != "" && name[|name| - 1] != '/'
    ensures Base(name) == Split(name, '/')[|Split(name, '/')| - 1]
  {
    LastPart(name);
    hide Split;
  }

  lemma {:induction false} SkippedFirst(part: string, parts: seq<string>)
    requires part == "" || part == "."
    ensures CleanParts([part] + parts, false) == CleanParts(parts, false)
  {
    if parts == [] {
      assert ([part] + parts)[..|[part] + parts| - 1] == [];
    } else {
      var front := parts[..|parts| - 1];
      assert ([part] + parts)[..|[part] + parts| - 1] == [part] + front;
      SkippedFirst(part, front);
    }
  }

  /** The path of a level entry: the directory `worldZipPrefix` reports, and "level.dat". */
  lemma LevelPath(cleaned: string)
    requires Acceptable(cleaned) && cleaned[|cleaned| - 1] != '/' && Base(cleaned) == "level.dat"
    ensures Clean(cleaned) == DirParts(cleaned) + ["level.dat"]
    ensures ".." !in DirParts(cleaned) && AllPlain(DirParts(cleaned))
  {
    BaseIsLast(cleaned);
    SafeNeverClimbs(cleaned);
    var parts := Split(cleaned, '/');
    SafeRelativeIsContained([], cleaned);
    assert forall i | 0 <= i < |DirParts(cleaned)| :: Clean(cleaned)[i] == DirParts(cleaned)[i];
    assert forall i | 0 <= i < |Clean(cleaned)| :: ValidName(Clean(cleaned)[i]);
  }

  lemma {:induction false} PartsJoined(parts: seq<string>, rest: string)
    requires parts != [] && forall p | p in parts :: '/' !in p
    ensures Split(Join(parts, '/') + "/" + rest, '/') == parts + Split(rest, '/')
  {
    SplitAtSeparator(Join(parts, '/'), rest, '/');
    SplitJoin(parts, '/');
  }

  lemma DotSlashParts(rest: string)
    ensures Split("./" + rest, '/') == ["."] + Split(rest, '/')
  {
    SplitAtSeparator(".", rest, '/');
    assert "./" + rest == "." + "/" + rest;
    SplitUnseparated(".", '/');
  }

  // ---- the level entry ----

  /** A regular entry that `worldZipPrefix` takes for the level data. */
  predicate LevelEntry(e: Entry) {
    && e.kind.Regular? && e.name != "" && e.name[|e.name| - 1] != '/'
    && Acceptable(TrimPrefix(e.name, "./")) && Base(TrimPrefix(e.name, "./")) == "level.dat"
  }

  function LevelPrefix(e: Entry): string {
    var directory := DirParts(TrimPrefix(e.name, "./"));
    if directory == [] then "" else Join(directory, '/') + "/"
  }

  lemma LevelDirectory(e: Entry)
    requires LevelEntry(e)
    ensures var directory := DirParts(TrimPrefix(e.name, "./"));
            && AllPlain(directory) && (forall p | p in directory :: '/' !in p)
            && Clean(TrimPrefix(e.name, "./")) == directory + ["level.dat"]
  {
    var cleaned := TrimPrefix(e.name, "./");
    assert cleaned != "" && cleaned[|cleaned| - 1] == e.name[|e.name| - 1];
    LevelPath(cleaned);
    SafeRelativeIsContained([], cleaned);
    forall p | p in DirParts(cleaned)
      ensures '/' !in p
    {
      assert p in Clean(cleaned);
    }
  }

  /** The parts of an entry below a directory prefix. */
  lemma PartsBelow(directory: Path, name: string)
    requires directory != [] && forall p | p in directory :: '/' !in p
    requires Join(directory, '/') + "/" <= name
    ensures Split(name, '/') == directory + Split(TrimPrefix(name, Join(directory, '/') + "/"), '/')
  {
    var prefix := Join(directory, '/') + "/";
    assert name == Join(directory, '/') + "/" + name[|prefix|..];
    PartsJoined(directory, name[|prefix|..]);
  }

  /** A level entry in a directory whose name starts with "./" does not match the prefix that is
      derived from it. */
  lemma DotSlashMisses(e: Entry)
    requires LevelEntry(e) && "./" <= e.name && LevelPrefix(e) != ""
    ensures !(LevelPrefix(e) <= e.name)
  {
    var directory := DirParts(TrimPrefix(e.name, "./"));
    LevelDirectory(e);
    assert e.name == "./" + e.name[2..];
    DotSlashParts(e.name[2..]);
    assert Plain(directory[0]);
    if LevelPrefix(e) <= e.name {
      PartsBelow(directory, e.name);
      SameFirst(directory, Split(TrimPrefix(e.name, LevelPrefix(e)), '/'), ".", Split(e.name[2..], '/'));
    }
  }

  lemma SameFirst(a: Path, b: Path, first: string, rest: Path)
    requires a != [] && a + b == [first] + rest
    ensures a[0] == first
  {
    assert (a + b)[0] == a[0];
  }

  lemma BaseOfLevel(e: Entry)
    requires LevelEntry(e)
    ensures Base(e.name) == "level.dat"
  {
    BaseIsLast(e.name);
    if "./" <= e.name {
      var rest := e.name[2..];
      assert e.name == "./" + rest;
      DotSlashParts(rest);
      BaseIsLast(rest);
    }
  }

  /** Once accepted, the level data is re-rooted to the top of the world. */
  lemma LevelIsAtTheRoot(e: Entry)
    requires LevelEntry(e) && Sort(LevelPrefix(e), e).Take?
    ensures Clean(Sort(LevelPrefix(e), e).name) == ["level.dat"]
  {
    var prefix := LevelPrefix(e);
    var name := Sort(prefix, e).name;
    LevelDirectory(e);
    TakenIsSafe(prefix, e);
    assert prefix <= e.name && name == TrimPrefix(TrimPrefix(e.name, prefix), "/");
    hide Sort, Clean, SafeRelative;
    if prefix == "" {
      LevelAtTop(e);
    } else {
      assert !("./" <= e.name) by {
        if "./" <= e.name { DotSlashMisses(e); }
      }
      LevelBelowDirectory(e, DirParts(e.name), name);
    }
  }

  lemma LevelAtTop(e: Entry)
    requires LevelEntry(e) && DirParts(TrimPrefix(e.name, "./")) == []
    ensures Clean(TrimPrefix(e.name, "/")) == ["level.dat"]
  {
    LevelDirectory(e);
    if "./" <= e.name {
      DotSlashParts(e.name[2..]);
      assert e.name == "./" + e.name[2..];
      SkippedFirst(".", Split(e.name[2..], '/'));
    }
  }

  /** Trimming a slash changes nothing that matters to `filepath.Clean`. */
  lemma CleanOfTrimmed(inner: string, name: string)
    requires name == TrimPrefix(inner, "/") && SafeRelative(name)
    ensures CleanParts(Split(inner, '/'), false) == Clean(name)
    ensures forall k | 0 <= k <= |Split(inner, '/')| :: ".." !in CleanParts(Split(inner, '/')[..k], false)
  {
    SafeNeverClimbs(name);
    if "/" <= inner {
      var parts, below := Split(inner, '/'), Split(name, '/');
      assert inner == "" + "/" + name;
      SplitAtSeparator("", name, '/');
      assert parts == [""] + below;
      SkippedFirst("", below);
      assert [""] + below[..0] == [""] + [];
      forall k | 0 < k <= |parts|
        ensures CleanParts(parts[..k], false) == CleanParts(below[..k - 1], false)
      {
        assert parts[..k] == [""] + below[..k - 1];
        SkippedFirst("", below[..k - 1]);
      }
    }
  }

  lemma LevelBelowDirectory(e: Entry, directory: Path, name: string)
    requires directory != [] && AllPlain(directory) && forall p | p in directory :: '/' !in p
    requires Clean(e.name) == directory + ["level.dat"]
    requires Join(directory, '/') + "/" <= e.name && SafeRelative(name)
    requires name == TrimPrefix(TrimPrefix(e.name, Join(directory, '/') + "/"), "/")
    ensures Clean(name) == ["level.dat"]
  {
    var inner := TrimPrefix(e.name, Join(directory, '/') + "/");
    CleanOfTrimmed(inner, name);
    PartsBelow(directory, e.name);
    CleanBelowRoot(directory, Split(inner, '/'), false);
    assert Clean(e.name) == CleanParts(Split(e.name, '/'), false);
    hide CleanParts, Split, Join, TrimPrefix, Clean, SafeRelative;
    assert (directory + Clean(name))[|directory|..] == Clean(name);
    assert (directory + ["level.dat"])[|directory|..] == ["level.dat"];
  }

  // ---- the uploaded world ----

  lemma {:induction false} TheLevelPath(entries: seq<Entry>, i: nat)
    requires i < |entries| && Base(TrimPrefix(entries[i].name, "./")) == "level.dat"
    requires |LevelPaths(entries)| == 1
    ensures LevelPaths(entries)[0] == TrimPrefix(entries[i].name, "./")
    decreases |entries|
  {
    if i > 0 {
      LevelIsListed(entries[1..], i - 1);
      TheLevelPath(entries[1..], i - 1);
    }
  }

  lemma {:induction false} LevelIsListed(entries: seq<Entry>, i: nat)
    requires i < |entries| && Base(TrimPrefix(entries[i].name, "./")) == "level.dat"
    ensures |LevelPaths(entries)| >= 1
    decreases |entries|
  {
    if i > 0 {
      LevelIsListed(entries[1..], i - 1);
    }
  }

  lemma PartsAreKept(e: Entry)
    requires LevelEntry(e) && LevelPrefix(e) <= e.name
    ensures var parts, all := Split(TrimPrefix(e.name, LevelPrefix(e)), '/'), Split(e.name, '/');
            |parts| <= |all| && parts == all[|all| - |parts|..]
  {
    var prefix := LevelPrefix(e);
    LevelDirectory(e);
    if prefix == "" {
      assert e.name[0..] == e.name;
    } else {
      PartsBelow(DirParts(TrimPrefix(e.name, "./")), e.name);
    }
  }

  lemma PartsAfterSlash(inner: string)
    ensures var parts, all := Split(TrimPrefix(inner, "/"), '/'), Split(inner, '/');
            |parts| <= |all| && parts == all[|all| - |parts|..]
  {
    if "/" <= inner {
      assert inner == "" + "/" + inner[1..];
      SplitAtSeparator("", inner[1..], '/');
    }
  }

  /** What is left of an entry's name below the prefix derived from it. */
  function Inner(e: Entry): string {
    TrimPrefix(TrimPrefix(e.name, LevelPrefix(e)), "/")
  }

  /** Whether the extraction loop finds the level data where the prefix search says it is. */
  predicate Matches(e: Entry) {
    LevelPrefix(e) <= e.name && SafeRelative(Inner(e))
  }

  /** Whether the loop takes the entry for a resource fork, or for the world directory itself. */
  predicate PassedOver(e: Entry) {
    if LevelPrefix(e) <= e.name then Inner(e) == "" || Junk(Inner(e)) else Junk(e.name)
  }

  /** What becomes of the level entry: passed over, taken if and only if its raw name starts with
      the prefix derived from its cleaned name and goes on with a safe path, or else refused. */
  lemma LevelIsTaken(e: Entry)
    requires LevelEntry(e)
    ensures Sort(LevelPrefix(e), e).Skip? <==> PassedOver(e)
    ensures Sort(LevelPrefix(e), e).Take? <==> !PassedOver(e) && Matches(e)
    ensures Sort(LevelPrefix(e), e).Reject? <==> !PassedOver(e) && !Matches(e)
  {
    NoBackslash(e);
    assert e.kind.Regular?;
    hide LevelEntry, LevelPrefix, SafeRelative, Junk, TrimPrefix;
    NoPrefix(e);
  }

  // An empty prefix is a prefix of every name.
  lemma NoPrefix(e: Entry)
    ensures LevelPrefix(e) == "" ==> LevelPrefix(e) <= e.name
  {
    hide LevelPrefix;
  }

  /** Only resource-fork names are passed over. */
  lemma LevelIsNotSkipped(e: Entry)
    requires LevelEntry(e) && "__MACOSX" !in Split(e.name, '/')
    ensures !PassedOver(e)
  {
    hide Split, Base, SafeRelative, TrimPrefix, LevelPrefix, Junk, DirParts, Clean;
    BaseOfLevel(e);
    BaseIsLast(e.name);
    NotJunk(e.name, Split(e.name, '/'));
    if LevelPrefix(e) <= e.name {
      PartsAreKept(e);
      PartsAfterSlash(TrimPrefix(e.name, LevelPrefix(e)));
      NotJunk(Inner(e), Split(e.name, '/'));
    }
  }

  lemma NoBackslash(e: Entry)
    requires LevelEntry(e)
    ensures '\\' !in TrimPrefix(TrimPrefix(e.name, LevelPrefix(e)), "/")
  {
    assert '\\' !in e.name by {
      if "./" <= e.name {
        assert e.name == "./" + e.name[2..];
      }
    }
    hide LevelEntry, LevelPrefix;
  }

  /** An upload whose level entry is neither matched nor passed over is always refused:
      `worldZipPrefix` cleans the name, dropping a leading "./" among other things, and the loop
      compares the raw one. */
  lemma UnmatchedLevelIsRefused(entries: seq<Entry>, maxUploadBytes: nat, i: nat)
    requires i < |entries| && LevelEntry(entries[i]) && !PassedOver(entries[i]) && !Matches(entries[i])
    ensures Extracted(entries, maxUploadBytes).Failure?
  {
    if WorldPrefix(entries).Success? {
      TheLevelPath(entries, i);
      LevelIsTaken(entries[i]);
      var prefix, limit := LevelPrefix(entries[i]), 4 * maxUploadBytes;
      assert WorldPrefix(entries) == Success(prefix);
      hide WorldPrefix, Sort, LevelEntry, LevelPrefix, Matches, PassedOver;
      if ExtractAll(prefix, limit, Extraction(map[], 0), entries).Success? {
        NothingIsRejected(prefix, limit, Extraction(map[], 0), entries, i);
      }
    }
  }

  /** Every level entry in a directory whose name begins with "./" is refused. */
  lemma DotSlashIsRefused(e: Entry)
    requires LevelEntry(e) && "./" <= e.name && LevelPrefix(e) != ""
    ensures !PassedOver(e) && !Matches(e)
  {
    DotSlashMisses(e);
    BaseOfLevel(e);
    assert e.name[0] == '.';
    hide LevelPrefix, LevelEntry, Base;
  }

  /** An archive that holds just "./<directory>/level.dat" is refused, though the prefix search
      finds its level data. */
  lemma DotSlashArchiveIsRefused(directory: string, maxUploadBytes: nat, content: Contents) returns (e: Entry)
    requires ValidName(directory) && '\\' !in directory
    ensures e.name == "./" + (directory + "/" + "level.dat") && e.kind.Regular? && e.content == content
    ensures WorldPrefix([e]) == Success(directory + "/")
    ensures Extracted([e], maxUploadBytes).Failure?
  {
    hide Split, LevelEntry, LevelPrefix, Matches, WorldPrefix, Extracted;
    e := Entry("./" + (directory + "/" + "level.dat"), Regular, |content|, content);
    DotSlashLevel(e, directory);
    OneLevelPrefix(e);
    DotSlashIsRefused(e);
    UnmatchedLevelIsRefused([e], maxUploadBytes, 0);
  }

  lemma DotSlashLevel(e: Entry, directory: string)
    requires ValidName(directory) && '\\' !in directory
    requires e.name == "./" + (directory + "/" + "level.dat") && e.kind.Regular?
    ensures LevelEntry(e) && LevelPrefix(e) == directory + "/"
  {
    var level, file := directory + "/" + "level.dat", "level.dat";
    hide Acceptable, Split, Base, DirParts;
    SplitAtSeparator(directory, file, '/');
    SplitUnseparated(directory, '/');
    SplitUnseparated(file, '/');
    DotSlashParts(level);
    TwoPartLevel(level, directory);
    assert e.name[2..] == level;
    assert Join([directory], '/') == directory;
    assert e.name[|e.name| - 1] == file[8];
  }

  lemma TwoPartLevel(name: string, directory: string)
    requires ValidName(directory) && '\\' !in directory && name == directory + "/" + "level.dat"
    requires Split(name, '/') == [directory, "level.dat"]
    ensures Acceptable(name) && Base(name) == "level.dat" && DirParts(name) == [directory]
  {
    var parts := [directory, "level.dat"];
    CleanOfNames(parts, false);
    CleanOfNames([directory], false);
    assert parts[..1] == [directory];
    assert name[|name| - 1] == "level.dat"[8];
    BaseIsLast(name);
    hide Split, CleanParts, Base;
    assert '\\' !in "level.dat";
  }

  lemma OneLevelPrefix(e: Entry)
    requires LevelEntry(e)
    ensures WorldPrefix([e]) == Success(LevelPrefix(e))
  {
    assert [e][1..] == [];
    assert LevelPaths([e]) == [TrimPrefix(e.name, "./")];
  }

  lemma NotJunk(name: string, all: seq<string>)
    requires var parts := Split(name, '/'); |parts| <= |all| && parts == all[|all| - |parts|..]
    requires all != [] && all[|all| - 1] == "level.dat" && "__MACOSX" !in all
    ensures name != "" && !Junk(name)
  {
    LastPart(name);
    assert forall p | p in Split(name, '/') :: p in all;
    NotMac(name);
    BaseIsLast(name);
    hide Split;
  }

  lemma FirstPart(name: string, directory: string)
    requires directory + "/" <= name && '/' !in directory
    ensures Split(name, '/')[0] == directory
  {
    var k := |directory|;
    assert name[k] == (directory + "/")[k] && name[..k] == directory;
    SplitAt(name, k, '/');
    SplitUnseparated(directory, '/');
    hide Split;
  }

  lemma NotMac(name: string)
    requires "__MACOSX" !in Split(name, '/')
    ensures !("__MACOSX/" <= name)
  {
    hide Split;
    var mac := "__MACOSX";
    assert '/' !in mac && mac + "/" == "__MACOSX/";
    if mac + "/" <= name {
      FirstPart(name, mac);
    }
  }

  /** A successfully extracted upload has its level data, with the entry's content, at the top
      of the world, so that the check for a recognisable world passes, unless it was passed over
      as a resource fork. */
  lemma UploadIsRecognised(entries: seq<Entry>, maxUploadBytes: nat, i: nat)
    requires Configured(maxUploadBytes) && Extracted(entries, maxUploadBytes).Success?
    requires i < |entries| && LevelEntry(entries[i]) && !PassedOver(entries[i])
    ensures FileAt(Extracted(entries, maxUploadBytes).value, ["level.dat"]) == Some(entries[i].Body())
  {
    var e := entries[i];
    TheLevelPath(entries, i);
    var prefix := LevelPrefix(e);
    assert WorldPrefix(entries) == Success(prefix);
    LevelIsTaken(e);
    hide Sort, LevelEntry, LevelPrefix, ExtractAll, FileAt, Taken, WorldPrefix, PassedOver, Matches;
    var limit := 4 * maxUploadBytes;
    NothingIsRejected(prefix, limit, Extraction(map[], 0), entries, i);
    LevelIsAtTheRoot(e);
    ExtractedWorldIsTheArchive(prefix, limit, entries, ["level.dat"], e.Body());
  }

  // ---- directories that declare a size ----

  lemma Untrimmed(name: string)
    requires name != "" && name[0] != '/' && !("./" <= name)
    ensures TrimPrefix(name, "./") == name == TrimPrefix(TrimPrefix(name, ""), "/")
  {
    assert name[0..] == name;
  }

  lemma PlainName(name: string)
    requires ValidName(name) && '\\' !in name && name != ".DS_Store"
    ensures Acceptable(name) && Base(name) == name && Clean(name) == [name] && DirParts(name) == []
    ensures !Junk(name) && TrimPrefix(name, "./") == name == TrimPrefix(TrimPrefix(name, ""), "/")
  {
    assert !("./" <= name) && !("__MACOSX/" <= name) by {
      assert "./"[1] == '/' && "__MACOSX/"[8] == '/';
    }
    Untrimmed(name);
    BaseIsLast(name);
    SplitUnseparated(name, '/');
    CleanOfNames([name], false);
    hide Base, Split, TrimPrefix;
    assert [name][..0] == [];
  }

  lemma DirectoryName(directory: string)
    requires ValidName(directory) && '\\' !in directory && directory != "__MACOSX" && directory != ".DS_Store"
    ensures var name := directory + "/";
            && Acceptable(name) && Base(name) == directory && Clean(name) == [directory]
            && !Junk(name) && TrimPrefix(name, "./") == name == TrimPrefix(TrimPrefix(name, ""), "/")
  {
    var name := directory + "/";
    DirectoryParts(directory);
    assert !("./" <= name) by {
      assert "./"[0] == '.' && "./"[1] == '/' && name[..|directory|] == directory;
    }
    Untrimmed(name);
    DirectoryBase(name, directory);
    assert "__MACOSX" !in [directory, ""];
    NotMac(name);
    hide Split, Base, TrimPrefix;
    CleanOfNames([directory], false);
    assert [directory, ""][..1] == [directory];
  }

  lemma DirectoryBase(name: string, directory: string)
    requires directory != "" && Split(name, '/') == [directory, ""]
    ensures Base(name) == directory
  {
    hide Split;
    assert [directory, ""][..1] == [directory];
    assert BaseParts([directory, ""]) == BaseParts([directory]);
  }

  lemma DirectoryParts(directory: string)
    requires ValidName(directory)
    ensures Split(directory + "/", '/') == [directory, ""]
  {
    SplitAtSeparator(directory, "", '/');
    SplitUnseparated(directory, '/');
    assert directory + "/" + "" == directory + "/";
  }

  /** An archive whose extraction succeeds with fewer bytes written than counted: level data and
      a directory that declares a size. */
  lemma DirectorySizesCount(directory: string, size: UInt64, content: Contents, maxUploadBytes: nat)
    returns (entries: seq<Entry>)
    requires ValidName(directory) && '\\' !in directory
    requires directory != "__MACOSX" && directory != ".DS_Store" && directory != "level.dat"
    requires size > 0 && |content| + size <= 4 * maxUploadBytes
    ensures WorldPrefix(entries) == Success("")
    ensures Extracted(entries, maxUploadBytes) == Success(map["level.dat" := File(content), directory := Dir(map[])])
    ensures var x := ExtractAll("", 4 * maxUploadBytes, Extraction(map[], 0), entries).value;
            x.total == |content| + size && FileBytes(Taken("", entries)) == |content|
  {
    hide Base, Clean, Acceptable, DirParts, Junk, TrimPrefix, SafeRelative, Sort;
    hide WorldPrefix, ExtractAll, Taken, FileBytes;
    var level, folder := Entry("level.dat", Regular, |content|, content), Entry(directory + "/", Directory, size, []);
    entries := [level, folder];
    TopEntries(level, folder, directory);
    TwoTaken(level, folder, directory);
    TwoExtracted(level, folder, directory, 4 * maxUploadBytes);
  }

  lemma TopEntries(level: Entry, folder: Entry, directory: string)
    requires ValidName(directory) && '\\' !in directory
    requires directory != "__MACOSX" && directory != ".DS_Store" && directory != "level.dat"
    requires level.kind.Regular? && folder.kind.Directory? && |level.content| == level.size < 0x8000_0000_0000_0000
    requires level.name == "level.dat" && folder.name == directory + "/"
    ensures LevelAndFolder(level, folder, directory) && WorldPrefix([level, folder]) == Success("")
  {
    hide Base, Clean, Acceptable, DirParts, Junk, TrimPrefix, SafeRelative, Sort, WorldPrefix;
    PlainName(level.name);
    DirectoryName(directory);
    TopEntryIsTaken(level);
    TopEntryIsTaken(folder);
    TwoLevelPaths(level, folder, directory);
  }

  /** Entries at the top of an archive: a regular "level.dat" and a directory. */
  ghost predicate LevelAndFolder(level: Entry, folder: Entry, directory: string) {
    && level.kind.Regular? && folder.kind.Directory? && directory != "level.dat"
    && |level.content| == level.size < 0x8000_0000_0000_0000
    && Sort("", level) == Take(level.name) && Clean(level.name) == ["level.dat"]
    && Sort("", folder) == Take(folder.name) && Clean(folder.name) == [directory]
  }

  lemma TopEntryIsTaken(e: Entry)
    requires Acceptable(e.name) && !Junk(e.name) && e.name != "" && !e.kind.Unsupported?
    requires TrimPrefix(TrimPrefix(e.name, ""), "/") == e.name
    ensures Sort("", e) == Take(e.name)
  {
    hide Junk, TrimPrefix, SafeRelative;
  }

  lemma TwoLevelPaths(level: Entry, folder: Entry, directory: string)
    requires Acceptable(level.name) && Base(level.name) == "level.dat" && DirParts(level.name) == []
    requires Acceptable(folder.name) && Base(folder.name) == directory && directory != "level.dat"
    requires TrimPrefix(level.name, "./") == level.name && TrimPrefix(folder.name, "./") == folder.name
    ensures WorldPrefix([level, folder]) == Success("")
  {
    hide Base, DirParts, TrimPrefix, Acceptable;
    var entries := [level, folder];
    assert entries[1..] == [folder] && [folder][1..] == [];
    assert LevelPaths([folder]) == [];
    assert LevelPaths(entries) == [level.name];
  }

  lemma TwoTaken(level: Entry, folder: Entry, directory: string)
    requires LevelAndFolder(level, folder, directory)
    ensures FileBytes(Taken("", [level, folder])) == |level.content|
  {
    hide Sort, Clean;
    var first, second := ItemOf(level.name, level), ItemOf(folder.name, folder);
    assert [level, folder][1..] == [folder] && [folder][1..] == [];
    assert Taken("", []) == [];
    assert Taken("", [folder]) == [second] + Taken("", []);
    assert Taken("", [level, folder]) == [first] + Taken("", [folder]);
    hide Taken, ItemOf;
    assert ([first] + [second])[1..] == [second] && [second][1..] == [];
    assert ItemBytes(first) == |level.content| && ItemBytes(second) == 0 by { IsItem(level, folder); }
    assert FileBytes([second]) == 0;
  }

  lemma IsItem(level: Entry, folder: Entry)
    requires level.kind.Regular? && folder.kind.Directory? && |level.content| == level.size < 0x8000_0000_0000_0000
    ensures ItemBytes(ItemOf(level.name, level)) == |level.content| && ItemBytes(ItemOf(folder.name, folder)) == 0
  {
    hide Clean;
  }

  lemma TwoExtracted(level: Entry, folder: Entry, directory: string, limit: nat)
    requires LevelAndFolder(level, folder, directory) && level.size + folder.size <= limit
    ensures ExtractAll("", limit, Extraction(map[], 0), [level, folder]) ==
            Success(Extraction(map["level.dat" := File(level.content), directory := Dir(map[])],
                               level.size + folder.size))
  {
    hide Sort, Clean;
    var none := Extraction(map[], 0);
    var one := Extraction(map["level.dat" := File(level.content)], level.size);
    var two := Extraction(one.tree[directory := Dir(map[])], level.size + folder.size);
    assert TakeEntry(limit, none, level, ItemOf(level.name, level)) == Success(one);
    assert TakeEntry(limit, one, folder, ItemOf(folder.name, folder)) == Success(two);
    hide TakeEntry, ItemOf;
    assert [level, folder][1..] == [folder] && [folder][1..] == [];
    assert ExtractAll("", limit, two, []) == Success(two);
    assert ExtractAll("", limit, one, [folder]) == ExtractAll("", limit, two, []);
    assert ExtractAll("", limit, none, [level, folder]) == ExtractAll("", limit, one, [folder]);
  }
}
