/** What the archives hold that are made under the mutex (backend/internal/operations/archives.go):
    with any threads and any schedule, each is a picture of the worlds between two whole
    operations, never of a half-replaced directory. */
module Snapshots {
  import opened Text
  import opened Wrappers
  import opened Trees
  import opened Archive
  import opened Operations

  /** What the work at each position of a trace does, whatever that is: how a replacement leaves
      the directory while it is under way and when it ends (from what it found, and from what is
      there then), and which worlds an archive reads early rather than late. */
  datatype Effects = Effects(names: seq<string>, torn: (nat, Forest) -> Forest, swap: (nat, Forest, Forest) -> Forest,
                             early: (nat, string) -> bool)

  /** The data directory, what each thread last found in it, and the archives by position. */
  datatype Storage = Storage(data: Forest, found: map<Tid, Forest>, archives: map<nat, seq<Entry>>) {
    function Found(tid: Tid): Forest {
      if tid in found then found[tid] else data
    }
  }

  /** What an archive sees of a directory that may change while it is read. */
  function Blend(e: Effects, k: nat, first: Forest, last: Forest): Forest {
    map n | n in first.Keys + last.Keys && n in (if e.early(k, n) then first else last) ::
      (if e.early(k, n) then first else last)[n]
  }

  lemma BlendOfOne(e: Effects, k: nat, data: Forest)
    ensures Blend(e, k, data, data) == data
  {
  }

  /** One act, at position `k` of the trace. */
  function Performed(st: Storage, k: nat, act: Act, e: Effects): Storage {
    match act.event
    case ArchiveBegin => st.(found := st.found[act.tid := st.data])
    case ArchiveEnd(ok) =>
      if ok then st.(archives := st.archives[k := WorldArchive(Blend(e, k, st.Found(act.tid), st.data), e.names)])
      else st
    case SwapBegin => st.(data := e.torn(k, st.data), found := st.found[act.tid := st.data])
    case SwapEnd(_) => st.(data := e.swap(k, st.Found(act.tid), st.data))
    case _ => st
  }

  /** The storage after the first `k` acts. */
  function After(data: Forest, trace: seq<Act>, k: nat, e: Effects): Storage
    requires k <= |trace|
  {
    if k == 0 then Storage(data, map[], map[]) else Performed(After(data, trace, k - 1, e), k - 1, trace[k - 1], e)
  }

  /** The data directory after the replacements among the first `k` acts, each performed whole, one
      after the other in the order in which they end. */
  function Whole(data: Forest, trace: seq<Act>, k: nat, e: Effects): Forest
    requires k <= |trace|
  {
    if k == 0 then data
    else
      var before := Whole(data, trace, k - 1, e);
      if trace[k - 1].event.SwapEnd? && k >= 2 then e.swap(k - 1, before, e.torn(k - 2, before)) else before
  }

  // ---- work is not interrupted ----

  /** The act at `k`, if it begins work, is followed by the end of that work, and if it ends work,
      preceded by its beginning. */
  ghost predicate Undivided(trace: seq<Act>, k: nat) {
    && k < |trace|
    && (trace[k].event.Begins() && k + 1 < |trace| ==>
          trace[k + 1].tid == trace[k].tid && trace[k].event.EndedBy(trace[k + 1].event))
    && (trace[k].event.Ends() ==>
          k > 0 && trace[k - 1].tid == trace[k].tid && trace[k - 1].event.EndedBy(trace[k].event))
  }

  ghost predicate Uninterrupted(trace: seq<Act>) {
    forall k | 0 <= k < |trace| :: Undivided(trace, k)
  }

  lemma StartedIsUninterrupted(tid: Tid, word: seq<Event>)
    requires Started(word)
    ensures Uninterrupted(Acts(tid, word))
  {
    var whole: seq<Event> :| CriticalSection(whole) && word <= whole;
    assert Bracketed(whole);
    hide CriticalSection;
    forall k | 0 <= k < |word|
      ensures Undivided(Acts(tid, word), k)
    {
      assert word[k] == whole[k] && (k > 0 ==> word[k - 1] == whole[k - 1]);
    }
  }

  lemma ThenUninterrupted(a: seq<Act>, b: seq<Act>)
    requires Uninterrupted(a) && Uninterrupted(b) && (a != [] ==> !a[|a| - 1].event.Begins())
    ensures Uninterrupted(a + b)
  {
    forall k | 0 <= k < |a + b|
      ensures Undivided(a + b, k)
    {
      if k < |a| {
        assert Undivided(a, k);
      } else {
        assert Undivided(b, k - |a|);
      }
    }
  }

  lemma {:induction false} SerialIsUninterrupted(sections: seq<Section>, tid: Tid, started: seq<Event>)
    requires forall x | x in sections :: CriticalSection(x.word)
    requires Started(started)
    ensures Uninterrupted(Flatten(sections) + Acts(tid, started))
    decreases |sections|
  {
    hide CriticalSection;
    var rest := Acts(tid, started);
    if sections == [] {
      assert Flatten(sections) + rest == rest;
      StartedIsUninterrupted(tid, started);
    } else {
      var x := sections[0];
      assert x in sections;
      SectionEnds(x);
      SerialIsUninterrupted(sections[1..], tid, started);
      StartedIsUninterrupted(x.tid, x.word);
      ThenUninterrupted(Acts(x.tid, x.word), Flatten(sections[1..]) + rest);
      assert Flatten(sections) + rest == Acts(x.tid, x.word) + (Flatten(sections[1..]) + rest);
    }
  }

  lemma SectionEnds(x: Section)
    requires CriticalSection(x.word)
    ensures Started(x.word) && |x.word| >= 2 && x.word[|x.word| - 1].Unlock?
  {
    assert Locked(x.word);
    hide CriticalSection;
    assert x.word <= x.word;
  }

  // ---- what the archives hold ----

  /** Between two acts the directory is as the whole operations left it, unless a replacement is
      under way; and whoever has begun work found it so. */
  ghost predicate Consistent(data: Forest, trace: seq<Act>, k: nat, e: Effects) {
    && k <= |trace|
    && var st, whole := After(data, trace, k, e), Whole(data, trace, k, e);
       if k > 0 && trace[k - 1].event.Begins()
       then st.Found(trace[k - 1].tid) == whole &&
            st.data == if trace[k - 1].event.SwapBegin? then e.torn(k - 1, whole) else whole
       else st.data == whole
  }

  lemma {:induction false} AlwaysConsistent(data: Forest, trace: seq<Act>, k: nat, e: Effects)
    requires Uninterrupted(trace) && k <= |trace|
    ensures Consistent(data, trace, k, e)
  {
    if k > 0 {
      AlwaysConsistent(data, trace, k - 1, e);
      assert Undivided(trace, k - 1);
      if k > 1 {
        assert Undivided(trace, k - 2);
      }
      hide WorldArchive, Blend;
    }
  }

  /** The archive that ends at `k` is that of the directory left by the whole operations before. */
  lemma ArchiveIsWhole(data: Forest, trace: seq<Act>, k: nat, e: Effects)
    requires Uninterrupted(trace) && k < |trace| && trace[k].event == ArchiveEnd(true)
    ensures k in After(data, trace, k + 1, e).archives
    ensures After(data, trace, k + 1, e).archives[k] == WorldArchive(Whole(data, trace, k, e), e.names)
  {
    AlwaysConsistent(data, trace, k, e);
    assert Undivided(trace, k);
    BlendOfOne(e, k, Whole(data, trace, k, e));
    hide WorldArchive, Blend;
  }

  /** Archives are made by successful archive steps only, and are not changed afterwards. */
  lemma {:induction false} ArchivesStay(data: Forest, trace: seq<Act>, k: nat, until: nat, e: Effects)
    requires k < until <= |trace|
    ensures k in After(data, trace, until, e).archives <==> trace[k].event == ArchiveEnd(true)
    ensures k in After(data, trace, until, e).archives ==>
      k in After(data, trace, k + 1, e).archives &&
      After(data, trace, until, e).archives[k] == After(data, trace, k + 1, e).archives[k]
    decreases until
  {
    hide WorldArchive, Blend;
    if k + 1 < until {
      ArchivesStay(data, trace, k, until - 1, e);
    } else {
      NoneAhead(data, trace, k, k, e);
    }
  }

  lemma {:induction false} NoneAhead(data: Forest, trace: seq<Act>, k: nat, later: nat, e: Effects)
    requires k <= |trace| && k <= later
    ensures later !in After(data, trace, k, e).archives
  {
    hide WorldArchive, Blend;
    if k > 0 {
      NoneAhead(data, trace, k - 1, later, e);
    }
  }

  /** Over any interleaving of any operations, and whatever they do to the directory and in what
      order an archive reads it: every archive is that of the data directory which the operations
      before it left, each performed whole, in mutex order. When nobody holds the mutex the data
      directory itself is so, too. */
  lemma ArchivesAreSnapshots(s: System, schedule: seq<Tid>, data: Forest, e: Effects)
    requires Initial(s)
    ensures var trace := Execute(s, schedule).trace;
            var end := After(data, trace, |trace|, e);
      && (forall k | 0 <= k < |trace| ::
            && (k in end.archives <==> trace[k].event == ArchiveEnd(true))
            && (k in end.archives ==> end.archives[k] == WorldArchive(Whole(data, trace, k, e), e.names)))
      && (Execute(s, schedule).holder.None? ==> end.data == Whole(data, trace, |trace|, e))
  {
    var system := Execute(s, schedule);
    var trace := system.trace;
    ExecutionIsUninterrupted(s, schedule);
    hide WorldArchive, Execute, Uninterrupted, Initial, After, Whole;
    forall k | 0 <= k < |trace|
      ensures k in After(data, trace, |trace|, e).archives <==> trace[k].event == ArchiveEnd(true)
      ensures k in After(data, trace, |trace|, e).archives ==>
        After(data, trace, |trace|, e).archives[k] == WorldArchive(Whole(data, trace, k, e), e.names)
    {
      ArchivesStay(data, trace, k, |trace|, e);
      if trace[k].event == ArchiveEnd(true) {
        ArchiveIsWhole(data, trace, k, e);
      }
    }
    AlwaysConsistent(data, trace, |trace|, e);
  }

  lemma ExecutionIsUninterrupted(s: System, schedule: seq<Tid>)
    requires Initial(s)
    ensures var end := Execute(s, schedule);
            Uninterrupted(end.trace) &&
            (end.holder.None? && end.trace != [] ==> !end.trace[|end.trace| - 1].event.Begins())
  {
    assert Serial(s, []);
    hide CriticalSection, Started, Flatten, Acts, Uninterrupted, Execute, Serial, Initial;
    var sections := ExecutionIsSerial(s, schedule, []);
    var tid, started := SerialTrace(Execute(s, schedule), sections);
    assert forall x | x in sections :: CriticalSection(x.word) by { SectionsOf(Execute(s, schedule), sections); }
    SerialIsUninterrupted(sections, tid, started);
    LastIsUnlock(sections);
    NoActs(tid);
  }

  lemma SectionsOf(s: System, sections: seq<Section>)
    requires Serial(s, sections)
    ensures forall x | x in sections :: CriticalSection(x.word)
  {
    hide CriticalSection, WellFormed, Flatten, Acts;
  }

  lemma NoActs(tid: Tid)
    ensures Acts(tid, []) == []
  {
  }

  lemma {:induction false} LastIsUnlock(sections: seq<Section>)
    requires forall x | x in sections :: CriticalSection(x.word)
    ensures Flatten(sections) != [] ==> Flatten(sections)[|Flatten(sections)| - 1].event.Unlock?
    decreases |sections|
  {
    hide CriticalSection;
    if sections != [] {
      assert sections[0] in sections;
      SectionEnds(sections[0]);
      LastIsUnlock(sections[1..]);
    }
  }
}
