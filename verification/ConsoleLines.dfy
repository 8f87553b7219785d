/** The browser's console view: `appendConsoleLine` and `mergeConsoleLines`
    (frontend/src/features/console/console-lines.ts). */
module ConsoleLines {
  import opened Wrappers

  datatype Line = Line(sequence: nat, timestamp: string, text: string)

  const CLIENT_LINE_LIMIT: nat := 2000

  /** `slice(-limit)`. */
  function Last<T>(lines: seq<T>, limit: nat): seq<T> {
    if |lines| <= limit then lines else lines[|lines| - limit..]
  }

  function Append(lines: seq<Line>, line: Line): seq<Line> {
    Last(lines + [line], CLIENT_LINE_LIMIT)
  }

  /** The live buffer after receiving `lines` one by one. */
  function Buffered(lines: seq<Line>): seq<Line> {
    if lines == [] then [] else Append(Buffered(lines[..|lines| - 1]), lines[|lines| - 1])
  }

  // ---- merging ----

  type Numbered = map<nat, Line>

  /** `Map.set` for each line in turn. */
  function Put(m: Numbered, lines: seq<Line>): Numbered
    decreases |lines|
  {
    if lines == [] then m else Put(m[lines[0].sequence := lines[0]], lines[1..])
  }

  predicate IsLeast(keys: set<nat>, least: nat) {
    least in keys && forall k | k in keys :: least <= k
  }

  /** The least number of a non-empty set. */
  function Least(keys: set<nat>): (least: nat)
    requires keys != {}
    ensures IsLeast(keys, least)
  {
    LeastExists(keys);
    var least :| IsLeast(keys, least);
    least
  }

  lemma {:induction false} LeastExists(keys: set<nat>)
    requires keys != {}
    ensures exists least :: IsLeast(keys, least)
  {
    var some :| some in keys;
    var others := keys - {some};
    if others == {} {
      assert forall k | k in keys :: k !in others;
      assert IsLeast(keys, some);
    } else {
      LeastExists(others);
      var least :| IsLeast(others, least);
      assert forall k | k in keys :: k == some || k in others;
      assert IsLeast(keys, if some < least then some else least);
    }
  }

  predicate StrictlyAscending(s: seq<nat>) {
    forall i, j :: 0 <= i < j < |s| ==> s[i] < s[j]
  }

  /** The numbers of a set in ascending order. */
  function Ascending(keys: set<nat>): (sorted: seq<nat>)
    ensures forall k :: k in sorted <==> k in keys
  {
    if keys == {} then [] else [Least(keys)] + Ascending(keys - {Least(keys)})
  }

  lemma {:induction false} AscendingAscends(keys: set<nat>)
    ensures StrictlyAscending(Ascending(keys)) && |Ascending(keys)| == |keys|
  {
    if keys != {} {
      var first := Least(keys);
      assert Ascending(keys) == [first] + Ascending(keys - {first});
      assert |keys - {first}| == |keys| - 1;
      hide Ascending, Least;
      AscendingAscends(keys - {first});
      SmallerFirst(first, Ascending(keys - {first}));
    }
  }

  lemma SmallerFirst(x: nat, rest: seq<nat>)
    requires StrictlyAscending(rest) && forall k | k in rest :: x < k
    ensures StrictlyAscending([x] + rest)
  {
    assert forall i | 0 <= i < |rest| :: rest[i] in rest;
  }

  function Lookup(m: Numbered, keys: seq<nat>): (lines: seq<Line>)
    requires forall k | k in keys :: k in m
    ensures |lines| == |keys|
  {
    seq(|keys|, i requires 0 <= i < |keys| => m[keys[i]])
  }

  /** The map's lines sorted by sequence number. */
  function Sorted(m: Numbered): seq<Line> {
    Lookup(m, Ascending(m.Keys))
  }

  function Merge(history: seq<Line>, live: seq<Line>): seq<Line> {
    Last(Sorted(Put(Put(map[], history), live)), CLIENT_LINE_LIMIT)
  }

  /** `mergeConsoleLines`. */
  method MergeConsoleLines(history: seq<Line>, live: seq<Line>) returns (merged: seq<Line>)
    ensures merged == Merge(history, live)
  {
    var bySequence: Numbered := map[];
    for i := 0 to |history|
      invariant Put(bySequence, history[i..]) == Put(map[], history)
    {
      assert history[i..][1..] == history[i + 1..];
      bySequence := bySequence[history[i].sequence := history[i]];
    }
    for i := 0 to |live|
      invariant Put(bySequence, live[i..]) == Put(Put(map[], history), live)
    {
      assert live[i..][1..] == live[i + 1..];
      bySequence := bySequence[live[i].sequence := live[i]];
    }
    merged := Last(Sorted(bySequence), CLIENT_LINE_LIMIT);
  }

  // ---- what merging shows ----

  predicate Increasing(lines: seq<Line>) {
    forall i, j :: 0 <= i < j < |lines| ==> lines[i].sequence < lines[j].sequence
  }

  predicate HasNumber(lines: seq<Line>, number: nat) {
    exists l :: l in lines && l.sequence == number
  }

  lemma {:induction false} PutHolds(m: Numbered, lines: seq<Line>, k: nat)
    ensures k in Put(m, lines) <==> k in m || HasNumber(lines, k)
    ensures k in Put(m, lines) ==>
              (if HasNumber(lines, k) then Put(m, lines)[k] in lines && Put(m, lines)[k].sequence == k
               else Put(m, lines)[k] == m[k])
    decreases |lines|
  {
    if lines != [] {
      PutHolds(m[lines[0].sequence := lines[0]], lines[1..], k);
      assert forall l :: l in lines <==> l == lines[0] || l in lines[1..];
    }
  }

  lemma {:induction false} PutConcat(m: Numbered, a: seq<Line>, b: seq<Line>)
    ensures Put(m, a + b) == Put(Put(m, a), b)
    decreases |a|
  {
    if a == [] {
      assert a + b == b;
    } else {
      assert (a + b)[1..] == a[1..] + b;
      PutConcat(m[a[0].sequence := a[0]], a[1..], b);
    }
  }

  /** The merged view is in strictly ascending order, so each number shows once; a number the
      live buffer holds shows a live line, any other a history line; and nothing is missing but
      what is older than everything in a full view. */
  lemma MergeShows(history: seq<Line>, live: seq<Line>, k: nat)
    ensures var view := Merge(history, live);
            && |view| <= 2000
            && Increasing(view)
            && (forall l | l in view ::
                  if HasNumber(live, l.sequence) then l in live else l in history)
            && (HasNumber(history, k) || HasNumber(live, k) ==>
                  HasNumber(view, k) || (|view| == 2000 && k < view[0].sequence))
  {
    var m := Put(Put(map[], history), live);
    forall n
      ensures MergedLine(m, history, live, n)
    {
      PutHolds(map[], history, n);
      PutHolds(Put(map[], history), live, n);
    }
    hide Put, Sorted, HasNumber;
    assert MergedLine(m, history, live, k);
    forall n | n in m
      ensures m[n].sequence == n
    {
      assert MergedLine(m, history, live, n);
    }
    SortedShows(m, k);
    forall l | l in Sorted(m)
      ensures if HasNumber(live, l.sequence) then l in live else l in history
    {
      assert MergedLine(m, history, live, l.sequence);
    }
    LastShows(Sorted(m));
    if k in m {
      LatestShows(Sorted(m), k);
    }
    hide Last, MergedLine;
  }

  lemma LastShows(lines: seq<Line>)
    requires Increasing(lines)
    ensures var view := Last(lines, CLIENT_LINE_LIMIT);
            |view| <= CLIENT_LINE_LIMIT && Increasing(view) && forall l | l in view :: l in lines
  {
  }

  lemma LatestShows(lines: seq<Line>, k: nat)
    requires Increasing(lines) && HasNumber(lines, k)
    ensures var view := Last(lines, CLIENT_LINE_LIMIT);
            HasNumber(view, k) || (|view| == CLIENT_LINE_LIMIT && k < view[0].sequence)
  {
    var l :| l in lines && l.sequence == k;
    var i :| 0 <= i < |lines| && lines[i] == l;
    var dropped := if |lines| <= CLIENT_LINE_LIMIT then 0 else |lines| - CLIENT_LINE_LIMIT;
    if i >= dropped {
      assert Last(lines, CLIENT_LINE_LIMIT)[i - dropped] == l;
    }
  }

  ghost predicate MergedLine(m: Numbered, history: seq<Line>, live: seq<Line>, n: nat) {
    && (n in m <==> HasNumber(history, n) || HasNumber(live, n))
    && (n in m ==> m[n].sequence == n && if HasNumber(live, n) then m[n] in live else m[n] in history)
  }

  ghost predicate Keyed(m: Numbered) {
    forall k | k in m :: m[k].sequence == k
  }

  lemma SortedShows(m: Numbered, k: nat)
    requires Keyed(m)
    ensures Increasing(Sorted(m))
    ensures forall l | l in Sorted(m) :: l.sequence in m && m[l.sequence] == l
    ensures k in m ==> HasNumber(Sorted(m), k)
  {
    var keys, sorted := Ascending(m.Keys), Sorted(m);
    AscendingAscends(m.Keys);
    hide Ascending;
    forall i | 0 <= i < |sorted|
      ensures keys[i] in m && sorted[i] == m[keys[i]]
    {
      assert keys[i] in keys;
    }
    if k in m {
      assert k in keys;
      var i :| 0 <= i < |keys| && keys[i] == k;
      assert sorted[i] in sorted && sorted[i].sequence == k;
    }
  }

  // ---- bounding the live buffer is invisible ----

  lemma {:induction false} BufferedIsLast(lines: seq<Line>)
    ensures Buffered(lines) == if |lines| <= 2000 then lines else lines[|lines| - 2000..]
    decreases |lines|
  {
    if lines != [] {
      BufferedIsLast(lines[..|lines| - 1]);
      assert lines == lines[..|lines| - 1] + [lines[|lines| - 1]];
    }
  }

  lemma {:induction false} AscendingIsUnique(a: seq<nat>, b: seq<nat>)
    requires StrictlyAscending(a) && StrictlyAscending(b) && forall k :: k in a <==> k in b
    ensures a == b
    decreases |a|
  {
    assert a != [] ==> a[0] in a;
    assert b != [] ==> b[0] in b;
    if a != [] {
      assert a[0] == b[0] by {
        var i :| 0 <= i < |a| && a[i] == b[0];
        var j :| 0 <= j < |b| && b[j] == a[0];
      }
      TailMembers(a);
      TailMembers(b);
      AscendingIsUnique(a[1..], b[1..]);
      assert a == [a[0]] + a[1..] && b == [b[0]] + b[1..];
    }
  }

  lemma TailMembers(s: seq<nat>)
    requires s != [] && StrictlyAscending(s)
    ensures StrictlyAscending(s[1..]) && forall k :: k in s[1..] <==> k in s && k != s[0]
  {
    assert s == [s[0]] + s[1..];
  }

  function From(m: Numbered, cut: nat): Numbered {
    map k | k in m && k >= cut :: m[k]
  }

  function Below(m: Numbered, cut: nat): Numbered {
    map k | k in m && k < cut :: m[k]
  }

  lemma SortedSplits(m: Numbered, cut: nat)
    ensures Sorted(m) == Sorted(Below(m, cut)) + Sorted(From(m, cut))
    ensures |Sorted(From(m, cut))| == |From(m, cut).Keys|
  {
    var low, high := Ascending(Below(m, cut).Keys), Ascending(From(m, cut).Keys);
    AscendingAscends(Below(m, cut).Keys);
    AscendingAscends(From(m, cut).Keys);
    AscendingAscends(m.Keys);
    hide Ascending, Lookup;
    Apart(low, high, cut);
    AscendingIsUnique(Ascending(m.Keys), low + high);
    LookupConcat(m, low, high);
    LookupSame(Below(m, cut), m, low);
    LookupSame(From(m, cut), m, high);
  }

  lemma Apart(low: seq<nat>, high: seq<nat>, cut: nat)
    requires StrictlyAscending(low) && StrictlyAscending(high)
    requires (forall k | k in low :: k < cut) && (forall k | k in high :: k >= cut)
    ensures StrictlyAscending(low + high)
  {
    assert forall i | 0 <= i < |low| :: low[i] in low;
    assert forall i | 0 <= i < |high| :: high[i] in high;
  }

  lemma LookupConcat(m: Numbered, a: seq<nat>, b: seq<nat>)
    requires forall k | k in a + b :: k in m
    ensures (forall k | k in a :: k in a + b) && (forall k | k in b :: k in a + b)
    ensures Lookup(m, a + b) == Lookup(m, a) + Lookup(m, b)
  {
    assert forall k | k in a :: k in a + b;
    assert forall k | k in b :: k in a + b;
  }

  lemma LookupSame(m: Numbered, n: Numbered, keys: seq<nat>)
    requires forall k | k in keys :: k in m && k in n && m[k] == n[k]
    ensures Lookup(m, keys) == Lookup(n, keys)
  {
  }

  lemma LastOfConcat<T>(a: seq<T>, b: seq<T>, limit: nat)
    requires |b| >= limit
    ensures Last(a + b, limit) == Last(b, limit)
  {
  }

  lemma {:induction false} PutAgrees(m: Numbered, n: Numbered, lines: seq<Line>, cut: nat)
    requires From(m, cut) == From(n, cut)
    ensures From(Put(m, lines), cut) == From(Put(n, lines), cut)
    decreases |lines|
  {
    if lines != [] {
      var k, l := lines[0].sequence, lines[0];
      FromUpdate(m, k, l, cut);
      FromUpdate(n, k, l, cut);
      PutAgrees(m[k := l], n[k := l], lines[1..], cut);
    }
  }

  lemma FromUpdate(m: Numbered, k: nat, l: Line, cut: nat)
    ensures From(m[k := l], cut) == if k >= cut then From(m, cut)[k := l] else From(m, cut)
  {
  }

  lemma {:induction false} PutBelow(m: Numbered, lines: seq<Line>, cut: nat)
    requires forall l | l in lines :: l.sequence < cut
    ensures From(Put(m, lines), cut) == From(m, cut)
    decreases |lines|
  {
    if lines != [] {
      FromUpdate(m, lines[0].sequence, lines[0], cut);
      PutBelow(m[lines[0].sequence := lines[0]], lines[1..], cut);
    }
  }

  lemma {:induction false} PutCounts(m: Numbered, lines: seq<Line>, cut: nat)
    requires Increasing(lines) && forall l | l in lines :: l.sequence >= cut
    ensures |From(Put(m, lines), cut).Keys| >= |lines|
    decreases |lines|
  {
    var numbers := set l | l in lines :: l.sequence;
    DistinctNumbers(lines);
    forall k | k in numbers
      ensures k in From(Put(m, lines), cut)
    {
      PutHolds(m, lines, k);
    }
    SubsetSize(numbers, From(Put(m, lines), cut).Keys);
  }

  lemma {:induction false} DistinctNumbers(lines: seq<Line>)
    requires Increasing(lines)
    ensures |set l | l in lines :: l.sequence| == |lines|
    decreases |lines|
  {
    if lines != [] {
      DistinctNumbers(lines[1..]);
      NumbersSplit(lines);
      assert lines[0].sequence !in set l | l in lines[1..] :: l.sequence;
    }
  }

  lemma NumbersSplit(lines: seq<Line>)
    requires lines != []
    ensures (set l | l in lines :: l.sequence) == {lines[0].sequence} + set l | l in lines[1..] :: l.sequence
  {
    assert lines == [lines[0]] + lines[1..];
  }

  /** Merging with the live buffer that drops its oldest lines shows exactly what merging with
      every live line ever received would show. */
  lemma BoundingIsInvisible(history: seq<Line>, live: seq<Line>)
    requires Increasing(live)
    ensures Merge(history, Buffered(live)) == Merge(history, live)
  {
    hide Put, Buffered, Sorted;
    BufferedIsLast(live);
    if |live| > CLIENT_LINE_LIMIT {
      var older, recent := live[..|live| - CLIENT_LINE_LIMIT], live[|live| - CLIENT_LINE_LIMIT..];
      assert live == older + recent;
      OlderDoNotShow(Put(map[], history), older, recent);
    }
  }

  /** Lines numbered below a full view's worth of later ones make no difference to it. */
  lemma OlderDoNotShow(base: Numbered, older: seq<Line>, recent: seq<Line>)
    requires Increasing(older + recent) && |recent| == CLIENT_LINE_LIMIT
    ensures Last(Sorted(Put(base, recent)), CLIENT_LINE_LIMIT) ==
            Last(Sorted(Put(base, older + recent)), CLIENT_LINE_LIMIT)
  {
    hide Put, Sorted, From, Last;
    var cut := recent[0].sequence;
    OlderAreBelow(older, recent);
    PutConcat(base, older, recent);
    PutBelow(base, older, cut);
    PutAgrees(base, Put(base, older), recent, cut);
    PutCounts(base, recent, cut);
    SameLatest(Put(base, recent), Put(base, older + recent), cut);
  }

  lemma OlderAreBelow(older: seq<Line>, recent: seq<Line>)
    requires Increasing(older + recent) && recent != []
    ensures forall l | l in older :: l.sequence < recent[0].sequence
    ensures Increasing(recent) && forall i | 0 <= i < |recent| :: recent[i].sequence >= recent[0].sequence
  {
    var all := older + recent;
    assert forall i | 0 <= i < |older| :: all[i] == older[i];
    assert forall i | 0 <= i < |recent| :: all[|older| + i] == recent[i];
  }

  lemma SameLatest(m: Numbered, n: Numbered, cut: nat)
    requires From(m, cut) == From(n, cut) && |From(m, cut).Keys| >= CLIENT_LINE_LIMIT
    ensures Last(Sorted(m), CLIENT_LINE_LIMIT) == Last(Sorted(n), CLIENT_LINE_LIMIT)
  {
    SortedSplits(m, cut);
    SortedSplits(n, cut);
    LastOfConcat(Sorted(Below(m, cut)), Sorted(From(m, cut)), CLIENT_LINE_LIMIT);
    LastOfConcat(Sorted(Below(n, cut)), Sorted(From(n, cut)), CLIENT_LINE_LIMIT);
  }
}
