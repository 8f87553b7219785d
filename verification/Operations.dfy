/** The operations that share one mutex (backend/internal/operations/archives.go): what each
    does between locking and unlocking, and what any interleaving of them keeps. */
module Operations {
  import opened Text
  import opened Wrappers
  import opened Paths
  import opened Trees
  import opened Archive
  import opened WorldSwap
  import Zip
  import Uploads

  /** An externally visible act of an operation. */
  datatype Event =
    | Lock | Unlock
    | Inspect(ok: bool, running: bool)
    | SaveOff(ok: bool) | Flush(ok: bool) | SaveOn(ok: bool)
    | ArchiveBegin | ArchiveEnd(ok: bool)
    | SwapBegin | SwapEnd(ok: bool)
  {
    predicate Begins() { ArchiveBegin? || SwapBegin? }
    predicate Ends() { ArchiveEnd? || SwapEnd? }
    predicate EndedBy(next: Event) { (ArchiveBegin? && next.ArchiveEnd?) || (SwapBegin? && next.SwapEnd?) }
  }

  // ---- what one critical section must look like ----

  /** Locked first, unlocked last, neither in between. */
  ghost predicate Locked(word: seq<Event>) {
    && |word| >= 2 && word[0].Lock? && word[|word| - 1].Unlock?
    && forall k | 0 < k < |word| - 1 :: !word[k].Lock? && !word[k].Unlock?
  }

  /** Work on the worlds ends before anything else happens, and ends nowhere else. */
  ghost predicate Bracketed(word: seq<Event>) {
    && (forall k | 0 <= k < |word| && word[k].Begins() :: k + 1 < |word| && word[k].EndedBy(word[k + 1]))
    && (forall k | 0 <= k < |word| && word[k].Ends() :: k > 0 && word[k - 1].EndedBy(word[k]))
  }

  /** The server was seen stopped, or its saves are off and flushed. */
  ghost predicate Quiet(word: seq<Event>, k: nat) {
    && k <= |word|
    && ((exists i :: 0 <= i < k && word[i] == Inspect(true, false)) ||
        (exists i, j :: 0 <= i < j < k && word[i] == SaveOff(true) && word[j] == Flush(true) &&
                        forall m | i < m < k :: !word[m].SaveOn?))
  }

  ghost predicate ArchivesQuietly(word: seq<Event>) {
    forall k | 0 <= k < |word| && word[k].ArchiveBegin? :: Quiet(word, k)
  }

  /** Each successful save-off has exactly one save-on attempt after it, and nothing else
      switches saves. */
  ghost predicate SavesRestored(word: seq<Event>) {
    && (forall i | 0 <= i < |word| && word[i] == SaveOff(true) ::
          exists j :: i < j < |word| && word[j].SaveOn? &&
                      forall k | i < k < |word| && k != j :: !word[k].SaveOn? && !word[k].SaveOff?)
    && (forall j | 0 <= j < |word| && word[j].SaveOn? ::
          exists i :: 0 <= i < j && word[i] == SaveOff(true))
  }

  ghost predicate CriticalSection(word: seq<Event>) {
    Locked(word) && Bracketed(word) && ArchivesQuietly(word) && SavesRestored(word)
  }

  // ---- the operations ----

  /** How the external calls of one operation answer. `ready` says whether the steps before
      the server is touched (directories, identifiers, staging files, extraction) succeed, and
      `publish` whether those after the work (closing, renaming, the catalogue row) do. */
  datatype Calls = Calls(ready: bool, inspect: Result<bool, ()>, saveOff: bool, flush: bool, saveOn: bool, work: bool,
                         publish: bool)

  class Service {
    var log: seq<Event>

    constructor ()
      ensures log == []
    {
      log := [];
    }

    method Emit(e: Event)
      modifies this
      ensures log == old(log) + [e]
    {
      log := log + [e];
    }

    /** `withConsistentWorld` around one archive step. */
    method WithConsistentWorld(calls: Calls) returns (ok: bool, ghost acts: seq<Event>)
      modifies this
      ensures log == old(log) + acts
      ensures CriticalSection([Lock] + acts + [Unlock])
      ensures ok == (calls.work && (calls.inspect == Success(false) || (calls.saveOff && calls.flush)))
      ensures ok ==> ArchiveEnd(true) in acts
    {
      hide CriticalSection;
      ghost var start := log;
      var running := calls.inspect.Success? && calls.inspect.value;
      var inspected := Inspect(calls.inspect.Success?, running);
      acts := EmitAfter(inspected, start, []);
      if calls.inspect.Success? && !running {
        ok, acts := RunArchive(calls.work, start, acts);
        assert acts == [Inspect(true, false), ArchiveBegin, ArchiveEnd(calls.work)];
        StoppedSection(calls.work);
        return;
      }
      acts := EmitAfter(SaveOff(calls.saveOff), start, acts);
      if !calls.saveOff {
        assert acts == [inspected, SaveOff(false)];
        RefusedSection(inspected);
        return false, acts;
      }
      acts := EmitAfter(Flush(calls.flush), start, acts);
      if !calls.flush {
        acts := EmitAfter(SaveOn(calls.saveOn), start, acts);
        assert acts == [inspected, SaveOff(true), Flush(false), SaveOn(calls.saveOn)];
        UnflushedSection(inspected, calls.saveOn);
        return false, acts;
      }
      ok, acts := RunArchive(calls.work, start, acts);
      acts := EmitAfter(SaveOn(calls.saveOn), start, acts);
      assert acts == [inspected, SaveOff(true), Flush(true), ArchiveBegin, ArchiveEnd(calls.work),
                      SaveOn(calls.saveOn)];
      assert acts[4] == ArchiveEnd(calls.work);
      RunningSection(inspected, calls.work, calls.saveOn);
    }

    /** The archive step itself. */
    method RunArchive(work: bool, ghost start: seq<Event>, ghost before: seq<Event>)
      returns (ok: bool, ghost acts: seq<Event>)
      requires log == start + before
      modifies this
      ensures ok == work && acts == before + [ArchiveBegin, ArchiveEnd(work)] && log == start + acts
      ensures acts[|before| + 1] == ArchiveEnd(work)
    {
      acts := EmitAfter(ArchiveBegin, start, before);
      acts := EmitAfter(ArchiveEnd(work), start, acts);
      ok := work;
    }

    /** One act after those since `start`. */
    method EmitAfter(e: Event, ghost start: seq<Event>, ghost acts: seq<Event>) returns (ghost more: seq<Event>)
      requires log == start + acts
      modifies this
      ensures more == acts + [e] && log == start + more
    {
      Emit(e);
      more := acts + [e];
    }

    /** `CreateBackup` and `PrepareWorldDownload`. */
    method ArchiveWorlds(calls: Calls) returns (ok: bool, ghost word: seq<Event>)
      modifies this
      ensures log == old(log) + word && CriticalSection(word)
      ensures ok ==> ArchiveEnd(true) in word
      ensures ok <==> calls.ready && calls.work && calls.publish &&
                      (calls.inspect == Success(false) || (calls.saveOff && calls.flush))
    {
      hide CriticalSection;
      ghost var start := log;
      ghost var acts := [];
      word := EmitAfter(Lock, start, []);
      ok := false;
      EmptySection();
      if calls.ready {
        ok, acts := WithConsistentWorld(calls);
        ok := ok && calls.publish;
      }
      assert log == start + ([Lock] + acts);
      word := EmitAfter(Unlock, start, [Lock] + acts);
    }

    /** `RestoreBackup` and `ReplaceWorldZip`. */
    method SwapWorlds(calls: Calls) returns (ok: bool, ghost word: seq<Event>)
      modifies this
      ensures log == old(log) + word && CriticalSection(word)
      ensures ok <==> SwapEnd(true) in word
      ensures ok <==> calls.ready && calls.work
    {
      Emit(Lock);
      ok := calls.ready;
      word := [Lock];
      if calls.ready {
        Emit(SwapBegin);
        Emit(SwapEnd(calls.work));
        ok := calls.work;
        word := word + [SwapBegin, SwapEnd(calls.work)];
      }
      Emit(Unlock);
      word := word + [Unlock];
    }

    /** `DeleteBackup` touches the catalogue only. */
    method DeleteBackup(calls: Calls) returns (ok: bool, ghost word: seq<Event>)
      modifies this
      ensures log == old(log) + word && word == [Lock, Unlock] && CriticalSection(word)
      ensures ok <==> calls.ready && calls.work
    {
      Emit(Lock);
      Emit(Unlock);
      ok := calls.ready && calls.work;
      word := [Lock, Unlock];
    }
  }

  lemma EmptySection()
    ensures CriticalSection([Lock] + [] + [Unlock])
  {
  }

  lemma StoppedSection(done: bool)
    ensures CriticalSection([Lock] + [Inspect(true, false), ArchiveBegin, ArchiveEnd(done)] + [Unlock])
  {
    var word := [Lock] + [Inspect(true, false), ArchiveBegin, ArchiveEnd(done)] + [Unlock];
    assert word[1] == Inspect(true, false);
  }

  lemma RefusedSection(inspect: Event)
    requires inspect.Inspect?
    ensures CriticalSection([Lock] + [inspect, SaveOff(false)] + [Unlock])
  {
  }

  lemma UnflushedSection(inspect: Event, restored: bool)
    requires inspect.Inspect?
    ensures CriticalSection([Lock] + [inspect, SaveOff(true), Flush(false), SaveOn(restored)] + [Unlock])
  {
    var word := [Lock] + [inspect, SaveOff(true), Flush(false), SaveOn(restored)] + [Unlock];
    assert word[2] == SaveOff(true) && word[4].SaveOn?;
  }

  lemma RunningSection(inspect: Event, done: bool, restored: bool)
    requires inspect.Inspect?
    ensures CriticalSection([Lock] + [inspect, SaveOff(true), Flush(true), ArchiveBegin, ArchiveEnd(done),
                                      SaveOn(restored)] + [Unlock])
  {
    var word := [Lock, inspect, SaveOff(true), Flush(true), ArchiveBegin, ArchiveEnd(done), SaveOn(restored), Unlock];
    assert word == [Lock] + [inspect, SaveOff(true), Flush(true), ArchiveBegin, ArchiveEnd(done),
                             SaveOn(restored)] + [Unlock];
    assert Locked(word) && Bracketed(word) by { hide Quiet, SavesRestored; }
    assert ArchivesQuietly(word) by {
      hide Locked, Bracketed, SavesRestored;
      assert Quiet(word, 4) by { assert word[2] == SaveOff(true) && word[3] == Flush(true); }
      hide Quiet;
    }
    assert SavesRestored(word) by {
      hide Locked, Bracketed, ArchivesQuietly, Quiet;
      assert word[2] == SaveOff(true) && word[6].SaveOn?;
    }
    hide Locked, Bracketed, ArchivesQuietly, SavesRestored, Quiet;
  }

  // ---- interleaving ----

  type Tid = nat

  /** A thread performs its operations one after the other: the next event is event `at` of
      operation `op`. */
  datatype Thread = Thread(words: seq<seq<Event>>, op: nat, at: nat)

  datatype Act = Act(tid: Tid, event: Event)

  datatype System = System(holder: Option<Tid>, threads: seq<Thread>, trace: seq<Act>)

  ghost predicate WellFormed(s: System) {
    forall t | 0 <= t < |s.threads| ::
      && (forall word | word in s.threads[t].words :: CriticalSection(word))
      && s.threads[t].op <= |s.threads[t].words|
      && (s.threads[t].op < |s.threads[t].words| ==> s.threads[t].at < |s.threads[t].words[s.threads[t].op]|)
      && (s.threads[t].op == |s.threads[t].words| ==> s.threads[t].at == 0)
  }

  ghost predicate Initial(s: System) {
    && s.holder.None? && s.trace == [] && WellFormed(s)
    && forall t | 0 <= t < |s.threads| :: s.threads[t].op == 0 && s.threads[t].at == 0
  }

  /** One thread performs its next event; `Lock` waits for a free mutex. A thread that cannot
      move leaves the system as it is. */
  ghost function Step(s: System, t: Tid): System
    requires WellFormed(s)
  {
    if t >= |s.threads| || s.threads[t].op == |s.threads[t].words| then s
    else
      var thread := s.threads[t];
      var event := thread.words[thread.op][thread.at];
      if event.Lock? && s.holder.Some? then s
      else
        var moved := if thread.at + 1 < |thread.words[thread.op]| then thread.(at := thread.at + 1)
                     else thread.(op := thread.op + 1, at := 0);
        System(if event.Lock? then Some(t) else if event.Unlock? then None else s.holder,
               s.threads[t := moved], s.trace + [Act(t, event)])
  }

  lemma StepIsWellFormed(s: System, t: Tid)
    requires WellFormed(s)
    ensures WellFormed(Step(s, t))
  {
    if t < |s.threads| && s.threads[t].op < |s.threads[t].words| && s.threads[t].op + 1 < |s.threads[t].words| {
      assert s.threads[t].words[s.threads[t].op + 1] in s.threads[t].words;
    }
  }

  /** The system after a schedule, for every choice of which thread tries to move next. */
  ghost function Execute(s: System, schedule: seq<Tid>): System
    requires WellFormed(s)
    decreases |schedule|
  {
    if schedule == [] then s
    else
      StepIsWellFormed(s, schedule[0]);
      Execute(Step(s, schedule[0]), schedule[1..])
  }

  /** A complete operation of one thread. */
  datatype Section = Section(tid: Tid, word: seq<Event>)

  function Acts(tid: Tid, word: seq<Event>): (acts: seq<Act>)
    ensures |acts| == |word|
  {
    seq(|word|, i requires 0 <= i < |word| => Act(tid, word[i]))
  }

  function Flatten(sections: seq<Section>): seq<Act> {
    if sections == [] then []
    else Acts(sections[0].tid, sections[0].word) + Flatten(sections[1..])
  }

  lemma {:induction false} FlattenSnoc(sections: seq<Section>, last: Section)
    ensures Flatten(sections + [last]) == Flatten(sections) + Acts(last.tid, last.word)
    decreases |sections|
  {
    if sections == [] {
      assert sections + [last] == [last];
      assert [last][1..] == [];
    } else {
      assert (sections + [last])[1..] == sections[1..] + [last];
      FlattenSnoc(sections[1..], last);
    }
  }

  /** The trace is whole critical sections one after the other, then the started part of the
      mutex holder's operation. */
  ghost predicate Serial(s: System, sections: seq<Section>) {
    && WellFormed(s)
    && (forall x | x in sections :: CriticalSection(x.word))
    && (s.holder.Some? ==>
          var t := s.holder.value;
          && t < |s.threads| && s.threads[t].op < |s.threads[t].words| && s.threads[t].at > 0
          && s.trace == Flatten(sections) + Acts(t, s.threads[t].words[s.threads[t].op][..s.threads[t].at]))
    && (s.holder.None? ==> s.trace == Flatten(sections))
    && (forall t | 0 <= t < |s.threads| && s.threads[t].at > 0 :: s.holder == Some(t))
  }

  lemma SerialStep(s: System, t: Tid, sections: seq<Section>) returns (longer: seq<Section>)
    requires Serial(s, sections)
    ensures Serial(Step(s, t), longer)
  {
    longer := sections;
    hide CriticalSection, Acts, Flatten;
    StepIsWellFormed(s, t);
    if Moves(s, t) {
      var thread := s.threads[t];
      var word := thread.words[thread.op];
      LocksFirst(s, t, sections);
      StartedGrows(t, word, thread.at);
      hide Moves;
      if thread.at + 1 == |word| {
        longer := sections + [Section(t, word)];
        assert word[..thread.at + 1] == word;
        FlattenSnoc(sections, Section(t, word));
      }
    }
  }

  /** The thread has an event to perform, and is not waiting for the mutex. */
  ghost predicate Moves(s: System, t: Tid)
    requires WellFormed(s)
  {
    && t < |s.threads| && s.threads[t].op < |s.threads[t].words|
    && !(s.threads[t].words[s.threads[t].op][s.threads[t].at].Lock? && s.holder.Some?)
  }

  /** A thread that moves is locking a free mutex, or holds it. */
  lemma LocksFirst(s: System, t: Tid, sections: seq<Section>)
    requires Serial(s, sections) && Moves(s, t)
    ensures var thread := s.threads[t];
            var word := thread.words[thread.op];
      && CriticalSection(word)
      && (word[thread.at].Lock? <==> thread.at == 0) && (word[thread.at].Unlock? <==> thread.at + 1 == |word|)
      && (thread.at == 0 ==> s.holder.None?) && (thread.at > 0 ==> s.holder == Some(t))
  {
    hide Flatten, Acts;
    var thread := s.threads[t];
    var word := thread.words[thread.op];
    assert word in thread.words && Locked(word);
    hide CriticalSection;
  }

  lemma StartedGrows(t: Tid, word: seq<Event>, at: nat)
    requires at < |word|
    ensures Acts(t, word[..0]) == []
    ensures Acts(t, word[..at]) + [Act(t, word[at])] == Acts(t, word[..at + 1])
  {
  }

  /** Every schedule of every set of threads runs the operations one at a time. */
  lemma {:induction false} ExecutionIsSerial(s: System, schedule: seq<Tid>, sections: seq<Section>)
    returns (longer: seq<Section>)
    requires Serial(s, sections)
    ensures Serial(Execute(s, schedule), longer)
    decreases |schedule|
  {
    longer := sections;
    if schedule != [] {
      longer := SerialStep(s, schedule[0], sections);
      longer := ExecutionIsSerial(Step(s, schedule[0]), schedule[1..], longer);
    }
  }

  // ---- what serial traces exclude ----

  /** Nobody else acts between the start of archive or swap work and its end. */
  ghost predicate NoOverlap(trace: seq<Act>) {
    forall i, k | 0 <= i < k < |trace| && trace[i].event.Begins() && trace[k].tid != trace[i].tid ::
      trace[i + 1].tid == trace[i].tid && trace[i + 1].event.Ends() && i + 1 < k
  }

  /** From position `from` on the thread acting at `k` alone performs `word`, which locks the
      mutex first and has made the server quiet by then. */
  ghost predicate QuietSince(trace: seq<Act>, k: nat, from: nat, word: seq<Event>) {
    && k < |trace| && from <= k < from + |word| <= |trace|
    && trace[from..from + |word|] == Acts(trace[k].tid, word)
    && word[0].Lock? && Quiet(word, k - from)
  }

  /** Each archive starts when its own thread has, in the same uninterrupted operation, seen
      the server stopped or turned saves off and flushed. */
  ghost predicate QuietArchives(trace: seq<Act>) {
    forall k | 0 <= k < |trace| && trace[k].event.ArchiveBegin? ::
      exists from: nat, word :: QuietSince(trace, k, from, word)
  }

  ghost predicate Started(word: seq<Event>) {
    exists whole: seq<Event> :: CriticalSection(whole) && word <= whole
  }

  lemma StartedIsQuiet(tid: Tid, word: seq<Event>)
    requires Started(word)
    ensures QuietArchives(Acts(tid, word)) && NoOverlap(Acts(tid, word))
  {
    var whole: seq<Event> :| CriticalSection(whole) && word <= whole;
    var trace := Acts(tid, word);
    assert NoOverlap(trace) by { hide QuietArchives; }
    forall k | 0 <= k < |trace| && trace[k].event.ArchiveBegin?
      ensures exists from: nat, word :: QuietSince(trace, k, from, word)
    {
      assert whole[k] == word[k] && Quiet(whole, k) && word[0] == whole[0] && word[0].Lock?;
      QuietPrefix(word, whole, k);
      hide CriticalSection, Quiet;
      assert trace[0..0 + |word|] == trace;
      assert QuietSince(trace, k, 0, word);
    }
  }

  lemma QuietPrefix(word: seq<Event>, whole: seq<Event>, k: nat)
    requires word <= whole && k <= |word| && Quiet(whole, k)
    ensures Quiet(word, k)
  {
    if i :| 0 <= i < k && whole[i] == Inspect(true, false) {
      assert word[i] == Inspect(true, false);
    } else {
      var i: nat, j: nat :| 0 <= i < j < k && whole[i] == SaveOff(true) && whole[j] == Flush(true) &&
                  forall m | i < m < k :: !whole[m].SaveOn?;
      assert word[i] == SaveOff(true) && word[j] == Flush(true);
      assert forall m | i < m < k :: !word[m].SaveOn?;
    }
  }

  lemma SectionThenNoOverlap(tid: Tid, word: seq<Event>, rest: seq<Act>)
    requires CriticalSection(word) && NoOverlap(rest)
    ensures NoOverlap(Acts(tid, word) + rest)
  {
    var n := |word|;
    var trace := Acts(tid, word) + rest;
    forall i, k | 0 <= i < k < |trace| && trace[i].event.Begins() && trace[k].tid != trace[i].tid
      ensures trace[i + 1].tid == trace[i].tid && trace[i + 1].event.Ends() && i + 1 < k
    {
      if i < n {
        assert word[i].Begins() && word[i + 1].Ends();
        assert trace[i + 1] == Act(tid, word[i + 1]);
      } else {
        assert trace[i] == rest[i - n] && trace[k] == rest[k - n] && trace[i + 1] == rest[i + 1 - n];
      }
    }
  }

  lemma QuietSinceThen(a: seq<Act>, b: seq<Act>, k: nat, from: nat, word: seq<Event>)
    requires QuietSince(a, k, from, word)
    ensures QuietSince(a + b, k, from, word)
  {
    hide Quiet;
    assert (a + b)[from..from + |word|] == a[from..from + |word|];
  }

  lemma QuietSinceAfter(a: seq<Act>, b: seq<Act>, k: nat, from: nat, word: seq<Event>)
    requires QuietSince(b, k, from, word)
    ensures QuietSince(a + b, |a| + k, |a| + from, word)
  {
    hide Quiet;
    assert (a + b)[|a| + from..|a| + from + |word|] == b[from..from + |word|];
  }

  lemma SectionThenQuiet(tid: Tid, word: seq<Event>, rest: seq<Act>)
    requires CriticalSection(word) && QuietArchives(rest)
    ensures QuietArchives(Acts(tid, word) + rest)
  {
    var n := |word|;
    var trace := Acts(tid, word) + rest;
    StartedIsQuiet(tid, word);
    hide QuietSince, CriticalSection;
    forall k | 0 <= k < |trace| && trace[k].event.ArchiveBegin?
      ensures exists from: nat, word :: QuietSince(trace, k, from, word)
    {
      if k < n {
        var from: nat, w :| QuietSince(Acts(tid, word), k, from, w);
        QuietSinceThen(Acts(tid, word), rest, k, from, w);
      } else {
        var from: nat, w :| QuietSince(rest, k - n, from, w);
        QuietSinceAfter(Acts(tid, word), rest, k - n, from, w);
      }
    }
  }

  lemma {:induction false} SerialTraces(sections: seq<Section>, tid: Tid, started: seq<Event>)
    requires forall x | x in sections :: CriticalSection(x.word)
    requires Started(started)
    ensures NoOverlap(Flatten(sections) + Acts(tid, started))
    ensures QuietArchives(Flatten(sections) + Acts(tid, started))
    decreases |sections|
  {
    var rest := Acts(tid, started);
    if sections == [] {
      assert Flatten(sections) + rest == rest;
      StartedIsQuiet(tid, started);
    } else {
      assert sections[0] in sections;
      SerialTraces(sections[1..], tid, started);
      assert Flatten(sections) + rest ==
             Acts(sections[0].tid, sections[0].word) + (Flatten(sections[1..]) + rest);
      SectionThenNoOverlap(sections[0].tid, sections[0].word, Flatten(sections[1..]) + rest);
      SectionThenQuiet(sections[0].tid, sections[0].word, Flatten(sections[1..]) + rest);
    }
  }

  /** Over any interleaving of any operations, from the start: archive and swap work never
      overlaps another thread's operation, archives only start on a quiet server, and the
      completed operations all restored saves. */
  lemma InterleavingsAreSafe(s: System, schedule: seq<Tid>) returns (sections: seq<Section>)
    requires Initial(s)
    ensures NoOverlap(Execute(s, schedule).trace)
    ensures QuietArchives(Execute(s, schedule).trace)
    ensures Serial(Execute(s, schedule), sections)
    ensures forall x | x in sections :: SavesRestored(x.word)
  {
    sections := ExecutionIsSerial(s, schedule, []);
    var tid, started := SerialTrace(Execute(s, schedule), sections);
    hide CriticalSection, Execute, Flatten, Acts, NoOverlap, QuietArchives, Started;
    SerialTraces(sections, tid, started);
    assert forall x | x in sections :: SavesRestored(x.word) by { SectionsRestore(sections); }
  }

  lemma SectionsRestore(sections: seq<Section>)
    requires forall x | x in sections :: CriticalSection(x.word)
    ensures forall x | x in sections :: SavesRestored(x.word)
  {
    hide SavesRestored, ArchivesQuietly, Bracketed, Locked;
  }

  /** The trace of a serial system: whole sections, and a started one. */
  lemma SerialTrace(s: System, sections: seq<Section>) returns (tid: Tid, started: seq<Event>)
    requires Serial(s, sections)
    ensures Started(started) && s.trace == Flatten(sections) + Acts(tid, started)
    ensures s.holder.None? ==> started == []
  {
    hide Flatten;
    if s.holder.Some? {
      tid := s.holder.value;
      var word := s.threads[tid].words[s.threads[tid].op];
      assert word in s.threads[tid].words;
      hide CriticalSection;
      started := word[..s.threads[tid].at];
      assert started <= word;
    } else {
      tid, started := 0, [];
      var whole := [Lock] + [] + [Unlock];
      EmptySection();
      hide CriticalSection;
      assert started <= whole;
      assert Acts(tid, started) == [];
    }
  }

  // ---- restoring a backup ----

  /** `requireWorld`: a regular `level.dat` in the main world. */
  predicate RequireWorld(root: Forest, world: string) {
    FileAt(root, [world, "level.dat"]).Some?
  }

  /** The working directories of a replacement, both inside the data directory: the names that
      `MkdirTemp` chooses, whether the staging directory can be made, and what (if anything) its
      deferred removal leaves of it. */
  datatype Workspace = Workspace(rollback: string, staging: string, made: bool, left: Option<Node>) {
    predicate Fits(world: string, data: Forest) {
      && Fresh(rollback, WorldNames(world), data) && Fresh(staging, WorldNames(world), data)
      && rollback != staging
    }
  }

  datatype ReplaceError<E> = NoStagingDirectory | BadArchive(cause: E) | NoLevel | NotInstalled(outcome: Outcome)

  /** How replacing the worlds by an extracted archive ends. */
  function ReplaceVerdict<E>(data: Forest, world: string, w: Workspace, extracted: Result<Forest, E>, statFails: bool,
                             faults: SwapFaults): Option<ReplaceError<E>>
  {
    if !w.made then Some(NoStagingDirectory)
    else match extracted
      case Failure(cause) => Some(BadArchive(cause))
      case Success(staged) =>
        if statFails || !RequireWorld(staged, world) then Some(NoLevel)
        else
          var outcome := Verdict(WorldNames(world), data, staged, faults);
          if outcome.Installed? then None else Some(NotInstalled(outcome))
  }

  /** What the data directory then holds under `name`. */
  function ReplacedAt<E>(data: Forest, world: string, w: Workspace, extracted: Result<Forest, E>, statFails: bool,
                         faults: SwapFaults, name: string): Option<Node>
  {
    if !w.made then At(data, name)
    else if name == w.staging then w.left
    else if extracted.Failure? || statFails || !RequireWorld(extracted.value, world) then At(data, name)
    else FinalAt(WorldNames(world), w.rollback, data, extracted.value, faults, name)
  }

  /** The error and the data directory with which a replacement returns are the two above. */
  ghost predicate EndsAs<E(!new)>(error: Option<ReplaceError<E>>, after: Forest, data: Forest, world: string,
                                  w: Workspace, extracted: Result<Forest, E>, statFails: bool, faults: SwapFaults)
  {
    && error == ReplaceVerdict(data, world, w, extracted, statFails, faults)
    && forall n :: At(after, n) == ReplacedAt(data, world, w, extracted, statFails, faults, n)
  }

  /** All: success means a recognisable world was staged, the three worlds are now the staged
      ones, and the rest is as before. Nothing: any error but a staging failure leaves all but
      the working directories as they were, if the recovery works. Of those the staging
      directory is left only if its removal fails; the rollback directory only after an error
      that followed its creation, and then it is empty, or if removing it failed. */
  lemma ReplacingIsAllOrNothing<E>(data: Forest, world: string, w: Workspace, extracted: Result<Forest, E>,
                                   statFails: bool, faults: SwapFaults, name: string)
    requires w.Fits(world, data) && faults.RecoveryWorks(WorldNames(world))
    ensures var error := ReplaceVerdict(data, world, w, extracted, statFails, faults);
            var after := ReplacedAt(data, world, w, extracted, statFails, faults, name);
      && (error.None? ==>
            && extracted.Success? && RequireWorld(extracted.value, world)
            && (name != w.rollback && name != w.staging ==>
                  after == At(if name in WorldNames(world) then extracted.value else data, name)))
      && (error.Some? && !(error.value.NotInstalled? && error.value.outcome.StageFailed?) ==>
            name != w.rollback && name != w.staging ==> after == At(data, name))
      && (name == w.staging ==> after == if w.made then w.left else None)
      && (name == w.rollback ==>
            var leaves := error.Some? && error.value.NotInstalled? && !error.value.outcome.NoRollbackDirectory?;
            if leaves then after == Some(Dir(map[]))
            else after == None || (error.None? && faults.fails(RemoveRollback)))
  {
    hide FirstStageBlocked, FirstInstallBlocked, Recovered, WorldNames, Verdict, FinalAt, FileAt;
    if w.made && extracted.Success? && !statFails && RequireWorld(extracted.value, world) {
      var names, staged := WorldNames(world), extracted.value;
      var outcome := Verdict(names, data, staged, faults);
      if outcome.Installed? {
        SuccessInstallsExactly(names, w.rollback, data, staged, faults, name);
      } else if outcome.NoRollbackDirectory? {
        FailureRestoresExactly(names, w.rollback, data, staged, faults, name);
      } else {
        if !outcome.StageFailed? {
          FailureRestoresExactly(names, w.rollback, data, staged, faults, name);
        }
        var left := FailureLeavesRollbackDirectory(names, w.rollback, data, staged, faults);
      }
    }
  }

  /** The common end of `RestoreBackup` and `ReplaceWorldZip`: require a world, replace, and
      remove the staging directory. */
  method InstallExtracted<E(!new)>(data: Forest, running: bool, world: string, w: Workspace,
                                   extracted: Result<Forest, E>, statFails: bool, faults: SwapFaults)
    returns (error: Option<ReplaceError<E>>, after: Forest)
    requires w.Fits(world, data) && w.made
    ensures EndsAs(error, after, data, world, w, extracted, statFails, faults)
  {
    hide FileAt, Verdict, FinalAt;
    after := data;
    if extracted.Failure? {
      error := Some(BadArchive(extracted.error));
    } else if statFails || !RequireWorld(extracted.value, world) {
      error := Some(NoLevel);
    } else {
      WorldNamesDistinct(world);
      var host := new Host(data, extracted.value, running, w.rollback, faults);
      var outcome := host.InstallStagedWorlds(WorldNames(world));
      after := host.Listing();
      error := if outcome.Installed? then None else Some(NotInstalled(outcome));
      StagingIsApart(data, world, w, extracted.value, faults);
    }
    if w.left.Some? {
      after := after[w.staging := w.left.value];
    }
  }

  lemma StagingIsApart(data: Forest, world: string, w: Workspace, staged: Forest, faults: SwapFaults)
    requires w.Fits(world, data)
    ensures FinalAt(WorldNames(world), w.rollback, data, staged, faults, w.staging) == None
  {
    hide Verdict;
  }

  /** What `extractBackup` leaves in an empty staging directory. */
  function ExtractedBackup(world: string, backup: seq<Entry>): Result<Forest, ArchiveError> {
    match ExtractAll(WorldNames(world), Extraction(map[], 0), backup)
    case Success(x) => Success(x.staged)
    case Failure(cause) => Failure(cause)
  }

  // ---- what the two operations are for ----

  /** `after` holds these worlds, and apart from them and the working directories what `data` holds. */
  ghost predicate WorldsAre(after: Forest, data: Forest, w: Workspace, world: string, worlds: Forest) {
    && At(after, world) == At(worlds, world)
    && At(after, world + "_nether") == At(worlds, world + "_nether")
    && At(after, world + "_the_end") == At(worlds, world + "_the_end")
    && forall n | n !in [world, world + "_nether", world + "_the_end", w.rollback, w.staging] ::
         At(after, n) == At(data, n)
  }

  ghost predicate NothingFails(w: Workspace, interrupted: nat -> bool, statFails: bool, faults: SwapFaults) {
    w.made && !statFails && (forall k :: !interrupted(k)) && (forall step :: !faults.fails(step))
  }

  /** The archive of a past state of the data directory: supported worlds, the main one with its
      level data, of 100 GiB at most. */
  ghost predicate BackupOf(backup: seq<Entry>, past: Forest, world: string) {
    var names := [world, world + "_nether", world + "_the_end"];
    && WellNamed(Dir(past)) && ArchivableWorlds(past, names) && backup == WorldArchive(past, names)
    && world in past && past[world].Dir? && "level.dat" in past[world].children
    && past[world].children["level.dat"].File?
    && FileBytes(Walk(Dir(past), Present(past, names))) <= 107_374_182_400
  }

  /** The archive holds a regular "level.dat" of the main world. */
  ghost predicate RecordsLevel(backup: seq<Entry>, world: string) {
    exists e :: e in backup && e.kind.Regular? && Clean(e.name) == [world, "level.dat"]
  }

  /** The archive of a world such as a player makes, within four times the upload limit. */
  ghost predicate UploadOf(entries: seq<Zip.Entry>, tree: Forest, top: Option<string>, maxUploadBytes: nat) {
    && entries == Uploads.ZipOf(tree, top) && Uploads.OrdinaryWorld(tree) && Uploads.GoodTop(top)
    && FileBytes(Uploads.ItemsIn(tree)) <= 4 * maxUploadBytes
  }

  /** `RestoreBackup` from an opened archive. */
  method RestoreBackup(data: Forest, running: bool, world: string, w: Workspace, backup: seq<Entry>,
                       interrupted: nat -> bool, statFails: bool, faults: SwapFaults)
    returns (error: Option<ReplaceError<ArchiveError>>, after: Forest)
    requires w.Fits(world, data)
    ensures EndsAs(error, after, data, world, w, ExtractedBackup(world, backup), statFails, faults) ||
            (EndsAs(error, after, data, world, w, Failure(Interrupted), statFails, faults) &&
             exists k :: interrupted(k))
    ensures forall past: Forest :: BackupOf(backup, past, world) ==>
      && (error.None? ==> WorldsAre(after, data, w, world, past))
      && (NothingFails(w, interrupted, statFails, faults) ==> error.None?)
    ensures !RecordsLevel(backup, world) ==>
      && (error == Some(NoStagingDirectory) || error == Some(NoLevel) || (error.Some? && error.value.BadArchive?))
      && forall n | n != w.staging :: At(after, n) == At(data, n)
  {
    hide ExtractAll, ReplaceVerdict, ReplacedAt, EndsAs, BackupOf, WorldsAre, NothingFails, RecordsLevel, RequireWorld;
    hide Workspace.Fits;
    if !w.made {
      error, after := Some(NoStagingDirectory), data;
      assert EndsAs(error, after, data, world, w, ExtractedBackup(world, backup), statFails, faults) by {
        NotMade(data, world, w, ExtractedBackup(world, backup), statFails, faults);
      }
    } else {
      var extracted := ExtractBackup(WorldNames(world), backup, interrupted);
      error, after := InstallExtracted(data, running, world, w, extracted, statFails, faults);
    }
    forall past: Forest | BackupOf(backup, past, world)
      ensures error.None? ==> WorldsAre(after, data, w, world, past)
      ensures NothingFails(w, interrupted, statFails, faults) ==> error.None?
    {
      RestoredBackup(error, after, data, world, w, backup, past, interrupted, statFails, faults);
    }
    if !RecordsLevel(backup, world) {
      NoLevelRecorded(error, after, data, world, w, backup, statFails, faults);
    }
  }

  lemma NotMade<E(!new)>(data: Forest, world: string, w: Workspace, extracted: Result<Forest, E>, statFails: bool,
                         faults: SwapFaults)
    requires !w.made
    ensures EndsAs(Some(NoStagingDirectory), data, data, world, w, extracted, statFails, faults)
  {
  }

  /** A failed extraction returns an error and leaves all but the staging directory alone. */
  lemma BadArchiveChangesNothing<E(!new)>(error: Option<ReplaceError<E>>, after: Forest, data: Forest, world: string,
                                          w: Workspace, cause: E, statFails: bool, faults: SwapFaults)
    requires EndsAs(error, after, data, world, w, Failure(cause), statFails, faults)
    ensures error == Some(if w.made then BadArchive(cause) else NoStagingDirectory)
    ensures forall n | n != w.staging :: At(after, n) == At(data, n)
  {
  }

  lemma RestoredBackup(error: Option<ReplaceError<ArchiveError>>, after: Forest, data: Forest, world: string,
                       w: Workspace, backup: seq<Entry>, past: Forest, interrupted: nat -> bool, statFails: bool,
                       faults: SwapFaults)
    requires BackupOf(backup, past, world) && w.Fits(world, data)
    requires EndsAs(error, after, data, world, w, ExtractedBackup(world, backup), statFails, faults) ||
             (EndsAs(error, after, data, world, w, Failure(Interrupted), statFails, faults) &&
              exists k :: interrupted(k))
    ensures error.None? ==> WorldsAre(after, data, w, world, past)
    ensures NothingFails(w, interrupted, statFails, faults) ==> error.None?
  {
    BackupIsRestorable(backup, past, world);
    hide BackupOf, ExtractedBackup, RequireWorld, EndsAs, WorldNames, NothingFails;
    hide ArchivableWorlds, WorldArchive, FileBytes, Walk, WellNamed, Select, WorldsAre;
    var names := WorldNames(world);
    BackupIsStaged(world, backup, past);
    if EndsAs(error, after, data, world, w, ExtractedBackup(world, backup), statFails, faults) {
      StagedEnds(error, after, data, world, w, Select(past, names), interrupted, statFails, faults);
      if error.None? {
        SelectedWorlds(after, data, w, world, past);
      }
    } else {
      BadArchiveChangesNothing(error, after, data, world, w, Interrupted, statFails, faults);
      InterruptedFails(w, interrupted, statFails, faults);
    }
  }

  lemma InterruptedFails(w: Workspace, interrupted: nat -> bool, statFails: bool, faults: SwapFaults)
    requires exists k :: interrupted(k)
    ensures !NothingFails(w, interrupted, statFails, faults)
  {
  }

  lemma BackupIsStaged(world: string, backup: seq<Entry>, past: Forest)
    requires var names := WorldNames(world);
      && WellNamed(Dir(past)) && ArchivableWorlds(past, names) && backup == WorldArchive(past, names)
      && RequireWorld(past, world) && FileBytes(Walk(Dir(past), Present(past, names))) <= MAX_RESTORED_BYTES
    ensures ExtractedBackup(world, backup) == Success(Select(past, WorldNames(world)))
    ensures RequireWorld(Select(past, WorldNames(world)), world)
  {
    hide ExtractAll, WorldArchive, ArchivableWorlds, FileBytes, FileAt;
    WorldNamesDistinct(world);
    ArchiveThenExtract(past, WorldNames(world));
    SelectKeepsLevel(past, world);
  }

  lemma SelectedWorlds(after: Forest, data: Forest, w: Workspace, world: string, past: Forest)
    requires WorldsAre(after, data, w, world, Select(past, WorldNames(world)))
    ensures WorldsAre(after, data, w, world, past)
  {
  }

  /** The end of an operation whose archive was extracted to a world. */
  lemma StagedEnds<E(!new)>(error: Option<ReplaceError<E>>, after: Forest, data: Forest, world: string, w: Workspace,
                            staged: Forest, interrupted: nat -> bool, statFails: bool, faults: SwapFaults)
    requires w.Fits(world, data) && RequireWorld(staged, world)
    requires EndsAs(error, after, data, world, w, Success(staged), statFails, faults)
    ensures error.None? ==> WorldsAre(after, data, w, world, staged)
    ensures NothingFails(w, interrupted, statFails, faults) ==> error.None?
  {
    hide RequireWorld, FinalAt, Verdict, WorldNames;
    if NothingFails(w, interrupted, statFails, faults) {
      WithoutFaultsInstalled(WorldNames(world), data, staged, faults);
    }
    if error.None? {
      StagedIsInstalled(after, data, world, w, staged, faults);
    }
  }

  lemma FitsWorlds(world: string, w: Workspace, data: Forest)
    requires w.Fits(world, data)
    ensures WorldNames(world) == [world, world + "_nether", world + "_the_end"]
    ensures w.rollback !in WorldNames(world) && w.staging !in WorldNames(world)
  {
  }

  lemma BackupIsRestorable(backup: seq<Entry>, past: Forest, world: string)
    requires BackupOf(backup, past, world)
    ensures var names := WorldNames(world);
      && WellNamed(Dir(past)) && ArchivableWorlds(past, names) && backup == WorldArchive(past, names)
      && RequireWorld(past, world) && FileBytes(Walk(Dir(past), Present(past, names))) <= MAX_RESTORED_BYTES
  {
    hide ArchivableWorlds, WorldArchive, FileBytes, Walk, WellNamed;
    LevelInWorld(past, world);
  }

  lemma NoLevelRecorded(error: Option<ReplaceError<ArchiveError>>, after: Forest, data: Forest, world: string,
                        w: Workspace, backup: seq<Entry>, statFails: bool, faults: SwapFaults)
    requires !RecordsLevel(backup, world)
    requires EndsAs(error, after, data, world, w, ExtractedBackup(world, backup), statFails, faults) ||
             EndsAs(error, after, data, world, w, Failure(Interrupted), statFails, faults)
    ensures error == Some(NoStagingDirectory) || error == Some(NoLevel) || (error.Some? && error.value.BadArchive?)
    ensures forall n | n != w.staging :: At(after, n) == At(data, n)
  {
    var extracted := ExtractedBackup(world, backup);
    if extracted.Success? {
      NoLevelStaged(world, backup);
    }
    hide ExtractedBackup, RequireWorld, FinalAt, Verdict;
  }

  lemma NoLevelStaged(world: string, backup: seq<Entry>)
    requires !RecordsLevel(backup, world) && ExtractedBackup(world, backup).Success?
    ensures !RequireWorld(ExtractedBackup(world, backup).value, world)
  {
    hide ExtractAll, FileAt, Clean, WorldNames;
    var staged, at := ExtractedBackup(world, backup).value, [world, "level.dat"];
    if FileAt(staged, at).Some? {
      ExtractedFilesAreTheArchive(WorldNames(world), backup, at, FileAt(staged, at).value);
    }
  }

  /** What `extractWorldZip` leaves in an empty staging directory. */
  function ExtractedZip(world: string, entries: seq<Zip.Entry>, maxUploadBytes: nat): Result<Forest, Zip.ZipError> {
    StagedZip(world, Zip.Extracted(entries, maxUploadBytes))
  }

  function StagedZip(world: string, tree: Result<Forest, Zip.ZipError>): Result<Forest, Zip.ZipError> {
    match tree
    case Success(children) => Success(map[world := Dir(children)])
    case Failure(cause) => Failure(cause)
  }

  /** `ReplaceWorldZip` from an opened archive. */
  method ReplaceWorldZip(data: Forest, running: bool, world: string, w: Workspace, entries: seq<Zip.Entry>,
                         maxUploadBytes: Int64, interrupted: nat -> bool, statFails: bool, faults: SwapFaults)
    returns (error: Option<ReplaceError<Zip.ZipError>>, after: Forest)
    requires w.Fits(world, data) && Zip.Configured(maxUploadBytes)
    ensures EndsAs(error, after, data, world, w, ExtractedZip(world, entries, maxUploadBytes), statFails, faults) ||
            (EndsAs(error, after, data, world, w, Failure(Zip.Interrupted), statFails, faults) &&
             exists k :: interrupted(k))
    ensures forall tree: Forest, top: Option<string> :: UploadOf(entries, tree, top, maxUploadBytes) ==>
      && (error.None? ==> WorldsAre(after, data, w, world, map[world := Dir(tree)]))
      && (NothingFails(w, interrupted, statFails, faults) ==> error.None?)
  {
    hide ReplaceVerdict, ReplacedAt, EndsAs, Zip.Extracted, UploadOf, WorldsAre, NothingFails, Workspace.Fits;
    if !w.made {
      error, after := Some(NoStagingDirectory), data;
      NotMade(data, world, w, ExtractedZip(world, entries, maxUploadBytes), statFails, faults);
    } else {
      var extracted := Zip.ExtractWorldZip(entries, maxUploadBytes, interrupted);
      error, after := InstallExtracted(data, running, world, w, StagedZip(world, extracted), statFails, faults);
    }
    forall tree: Forest, top: Option<string> | UploadOf(entries, tree, top, maxUploadBytes)
      ensures error.None? ==> WorldsAre(after, data, w, world, map[world := Dir(tree)])
      ensures NothingFails(w, interrupted, statFails, faults) ==> error.None?
    {
      UploadedWorld(error, after, data, world, w, entries, tree, top, maxUploadBytes, interrupted, statFails, faults);
    }
  }

  lemma UploadedWorld(error: Option<ReplaceError<Zip.ZipError>>, after: Forest, data: Forest, world: string,
                      w: Workspace, entries: seq<Zip.Entry>, tree: Forest, top: Option<string>, maxUploadBytes: nat,
                      interrupted: nat -> bool, statFails: bool, faults: SwapFaults)
    requires UploadOf(entries, tree, top, maxUploadBytes) && Zip.Configured(maxUploadBytes) && w.Fits(world, data)
    requires EndsAs(error, after, data, world, w, ExtractedZip(world, entries, maxUploadBytes), statFails, faults) ||
             (EndsAs(error, after, data, world, w, Failure(Zip.Interrupted), statFails, faults) &&
              exists k :: interrupted(k))
    ensures error.None? ==> WorldsAre(after, data, w, world, map[world := Dir(tree)])
    ensures NothingFails(w, interrupted, statFails, faults) ==> error.None?
  {
    var extracted, staged := ExtractedZip(world, entries, maxUploadBytes), map[world := Dir(tree)];
    UploadIsStaged(world, entries, tree, top, maxUploadBytes);
    hide ExtractedZip, UploadOf, RequireWorld, FinalAt, Verdict, EndsAs;
    if EndsAs(error, after, data, world, w, extracted, statFails, faults) {
      StagedEnds(error, after, data, world, w, staged, interrupted, statFails, faults);
    } else {
      BadArchiveChangesNothing(error, after, data, world, w, Zip.Interrupted, statFails, faults);
    }
  }

  lemma UploadIsStaged(world: string, entries: seq<Zip.Entry>, tree: Forest, top: Option<string>, maxUploadBytes: nat)
    requires UploadOf(entries, tree, top, maxUploadBytes) && Zip.Configured(maxUploadBytes)
    ensures ExtractedZip(world, entries, maxUploadBytes) == Success(map[world := Dir(tree)])
    ensures RequireWorld(map[world := Dir(tree)], world)
  {
    Uploads.UploadedWorldIsExtracted(tree, top, maxUploadBytes);
    hide Zip.Extracted, RequireWorld, Uploads.ZipOf;
    LevelInWorld(map[world := Dir(tree)], world);
  }

  lemma LevelInWorld(root: Forest, world: string)
    requires world in root && root[world].Dir? && "level.dat" in root[world].children
    requires root[world].children["level.dat"].File?
    ensures RequireWorld(root, world)
  {
    var level, children := ["level.dat"], root[world].children;
    assert [world, "level.dat"][1..] == level;
    assert FileAt(children, level).Some?;
  }

  lemma StagedIsInstalled(after: Forest, data: Forest, world: string, w: Workspace, staged: Forest, faults: SwapFaults)
    requires w.Fits(world, data) && Verdict(WorldNames(world), data, staged, faults).Installed?
    requires forall n | n != w.staging ::
               At(after, n) == FinalAt(WorldNames(world), w.rollback, data, staged, faults, n)
    ensures WorldsAre(after, data, w, world, staged)
  {
    hide FinalAt, Verdict;
    FitsWorlds(world, w, data);
    forall n | n != w.staging && n != w.rollback
      ensures At(after, n) == At(if n in WorldNames(world) then staged else data, n)
    {
      SuccessInstallsExactly(WorldNames(world), w.rollback, data, staged, faults, n);
    }
  }

  /** Backup, any later changes, a restore that returns without an error: the worlds are again
      what they were when the backup was made, worlds absent then are absent now, and everything
      else but the working directories is as it is now. No extraction check ever fails. */
  lemma BackupThenRestore(world: string, past: Forest, now: Forest, w: Workspace, statFails: bool, faults: SwapFaults,
                          name: string)
    requires WellNamed(Dir(past)) && ArchivableWorlds(past, WorldNames(world)) && RequireWorld(past, world)
    requires FileBytes(Walk(Dir(past), Present(past, WorldNames(world)))) <= MAX_RESTORED_BYTES
    ensures var restored := ExtractedBackup(world, WorldArchive(past, WorldNames(world)));
            && restored == Success(Select(past, WorldNames(world))) && RequireWorld(restored.value, world)
            && (ReplaceVerdict(now, world, w, restored, statFails, faults).None? ==>
                  name != w.rollback && name != w.staging ==>
                    ReplacedAt(now, world, w, restored, statFails, faults, name) ==
                    At(if name in WorldNames(world) then past else now, name))
            && ((forall step :: !faults.fails(step)) && w.made && !statFails ==>
                  ReplaceVerdict(now, world, w, restored, statFails, faults).None?)
  {
    hide ExtractAll, WorldArchive, Recovered, ArchivableWorlds, FileBytes, Verdict, FinalAt, FileAt;
    var names := WorldNames(world);
    WorldNamesDistinct(world);
    ArchiveThenExtract(past, names);
    var staged := Select(past, names);
    SelectKeepsLevel(past, world);
    if forall step :: !faults.fails(step) {
      WithoutFaultsInstalled(names, now, staged, faults);
    }
    if Verdict(names, now, staged, faults).Installed? {
      SuccessInstallsExactly(names, w.rollback, now, staged, faults, name);
    }
  }

  lemma SelectKeepsLevel(past: Forest, world: string)
    requires RequireWorld(past, world)
    ensures RequireWorld(Select(past, WorldNames(world)), world)
  {
    assert WorldNames(world)[0] == world;
    assert FileAt(Select(past, WorldNames(world)), [world, "level.dat"]) == FileAt(past, [world, "level.dat"]);
  }
}
