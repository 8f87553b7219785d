/** Following a growing log file by byte offset: the arithmetic of `readAvailable`
    (backend/internal/console/hub.go). */
module Tail {
  import opened Wrappers

  const NEWLINE: Byte := 10
  const RETURN: Byte := 13

  /** At first only the last 256 KiB are read. */
  const BACKLOG: nat := 262_144

  // ---- splitting ----

  /** The length of the first line with its newline; zero if no line is complete. */
  function LineLength(s: Bytes): (n: nat)
    ensures n <= |s|
  {
    if s == [] then 0
    else if s[0] == NEWLINE then 1
    else
      var n := LineLength(s[1..]);
      if n == 0 then 0 else n + 1
  }

  /** The complete lines of `s`, newlines included. */
  function Lines(s: Bytes): seq<Bytes>
    decreases |s|
  {
    var n := LineLength(s);
    if n == 0 then [] else [s[..n]] + Lines(s[n..])
  }

  /** The number of bytes in complete lines. */
  function Consumed(s: Bytes): (n: nat)
    ensures n <= |s|
    decreases |s|
  {
    var n := LineLength(s);
    if n == 0 then 0 else n + Consumed(s[n..])
  }

  /** The unfinished line at the end. */
  function Rest(s: Bytes): Bytes {
    s[Consumed(s)..]
  }

  lemma {:induction false} LineLengthConcat(a: Bytes, b: Bytes)
    ensures LineLength(a + b) ==
            if LineLength(a) > 0 then LineLength(a) else if LineLength(b) > 0 then |a| + LineLength(b) else 0
    decreases |a|
  {
    if a == [] {
      assert a + b == b;
    } else {
      assert (a + b)[1..] == a[1..] + b;
      LineLengthConcat(a[1..], b);
    }
  }

  /** A line ends with the first newline. */
  lemma {:induction false} LineLengthFinds(s: Bytes)
    ensures var n := LineLength(s);
            (n == 0 ==> NEWLINE !in s) && (n > 0 ==> s[n - 1] == NEWLINE && NEWLINE !in s[..n - 1])
    decreases |s|
  {
    if s != [] {
      LineLengthFinds(s[1..]);
      assert s == [s[0]] + s[1..];
      var n := LineLength(s);
      if n > 1 {
        assert s[..n - 1] == [s[0]] + s[1..][..n - 2];
      }
    }
  }

  /** Reading on where the last complete line ended splits the whole as if read at once. */
  lemma {:induction false} LinesOfGrowth(a: Bytes, b: Bytes)
    ensures Lines(a + b) == Lines(a) + Lines(Rest(a) + b)
    ensures Consumed(a + b) == Consumed(a) + Consumed(Rest(a) + b)
    decreases |a|
  {
    hide LineLength, Rest;
    var n := LineLength(a);
    LineLengthConcat(a, b);
    if n == 0 {
      NoLineYet(a);
    } else {
      assert (a + b)[n..] == a[n..] + b && (a + b)[..n] == a[..n];
      LinesOfGrowth(a[n..], b);
      RestAfterLine(a);
    }
  }

  lemma NoLineYet(s: Bytes)
    requires LineLength(s) == 0
    ensures Rest(s) == s && Lines(s) == [] && Consumed(s) == 0
  {
  }

  lemma RestAfterLine(s: Bytes)
    requires LineLength(s) > 0
    ensures Rest(s) == Rest(s[LineLength(s)..])
  {
  }

  lemma {:induction false} RestHasNoLine(s: Bytes)
    ensures LineLength(Rest(s)) == 0
    ensures Consumed(s) > 0 ==> s[Consumed(s) - 1] == NEWLINE
    decreases |s|
  {
    var n := LineLength(s);
    LineLengthFinds(s);
    if n == 0 {
      assert Rest(s) == s;
    } else {
      RestHasNoLine(s[n..]);
      RestAfterLine(s);
    }
  }

  // ---- polling ----

  /** What one poll finds: the file cannot be opened or measured; it has `size` bytes but cannot
      be positioned; or it then has `content` to read, and reading may fail at a position. */
  datatype View = Unreadable | Unpositioned(size: nat) | Readable(size: nat, content: Bytes, failsAt: Option<nat>)

  function StartOf(offset: int, size: nat): nat {
    var from := if offset < 0 then (if size < BACKLOG then 0 else size - BACKLOG) else offset;
    if size < from then 0 else from
  }

  /** The bytes from a position up to where reading stops. */
  function Window(view: View, from: nat): Bytes
    requires view.Readable?
  {
    var end := if view.failsAt.Some? && view.failsAt.value < |view.content| then view.failsAt.value else |view.content|;
    if from <= end then view.content[from..end] else []
  }

  /** The offset after a poll and the raw lines it publishes. */
  function Poll(offset: int, view: View): (int, seq<Bytes>) {
    if view.Unreadable? then (offset, [])
    else if view.Unpositioned? then (StartOf(offset, view.size), [])
    else
      var from := StartOf(offset, view.size);
      var seen := Window(view, from);
      (if view.failsAt.Some? then from + |seen| else from + Consumed(seen), Lines(seen))
  }

  function PollAll(offset: int, views: seq<View>): (int, seq<Bytes>)
    decreases |views|
  {
    if views == [] then (offset, [])
    else
      var first := Poll(offset, views[0]);
      var rest := PollAll(first.0, views[1..]);
      (rest.0, first.1 + rest.1)
  }

  /** The log only grows, from poll to poll and between measuring and reading, and every read
      reaches the end. */
  ghost predicate Appending(known: Bytes, views: seq<View>)
    decreases |views|
  {
    views == [] ||
    if views[0].Unreadable? then Appending(known, views[1..])
    else if views[0].Unpositioned? then |known| <= views[0].size && Appending(known, views[1..])
    else
      && views[0].failsAt.None? && |known| <= views[0].size <= |views[0].content|
      && known <= views[0].content
      && Appending(views[0].content, views[1..])
  }

  /** The content at the last successful poll. */
  function LastSeen(known: Bytes, views: seq<View>): Bytes
    decreases |views|
  {
    if views == [] then known
    else LastSeen(if views[0].Readable? then views[0].content else known, views[1..])
  }

  // A poll at the end of the last complete line of what is known.
  lemma PollContinues(known: Bytes, from: nat, view: View)
    requires view.Readable? && view.failsAt.None? && |known| <= view.size <= |view.content| && known <= view.content
    requires from <= |known|
    ensures var polled := Poll(from + Consumed(known[from..]), view);
            && polled.0 == from + Consumed(view.content[from..])
            && Lines(view.content[from..]) == Lines(known[from..]) + polled.1
  {
    hide LineLength, Lines, Consumed;
    var a := known[from..];
    var b := view.content[|known|..];
    var offset := from + Consumed(a);
    assert view.content[from..] == a + b;
    LinesOfGrowth(a, b);
    assert StartOf(offset, view.size) == offset;
    assert Window(view, offset) == Rest(a) + b;
  }

  /** For any appending and any polling schedule: everything published so far is exactly the
      complete lines of what has been seen, once each and in order, and the offset stands just
      after the last of them. */
  lemma {:induction false} TailingIsSplitting(known: Bytes, from: nat, views: seq<View>)
    requires from <= |known| && Appending(known, views)
    ensures known <= LastSeen(known, views)
    ensures PollAll(from + Consumed(known[from..]), views).0 == from + Consumed(LastSeen(known, views)[from..])
    ensures Lines(LastSeen(known, views)[from..]) ==
            Lines(known[from..]) + PollAll(from + Consumed(known[from..]), views).1
    decreases |views|
  {
    hide LineLength, Lines, Consumed, Poll;
    if views == [] {
    } else if !views[0].Readable? {
      NothingIsRead(from + Consumed(known[from..]), views[0]);
      TailingIsSplitting(known, from, views[1..]);
    } else {
      PollContinues(known, from, views[0]);
      TailingIsSplitting(views[0].content, from, views[1..]);
      var first := Poll(from + Consumed(known[from..]), views[0]);
      var rest := PollAll(first.0, views[1..]);
      assert Lines(known[from..]) + (first.1 + rest.1) == (Lines(known[from..]) + first.1) + rest.1;
    }
  }

  lemma NothingIsRead(offset: nat, view: View)
    requires !view.Readable? && (view.Unpositioned? ==> offset <= view.size)
    ensures Poll(offset, view) == (offset as int, [])
  {
  }

  /** From the very first poll: what is published is the complete lines from the starting
      offset, at most 256 KiB before the first measured end. */
  lemma TailingFromTheStart(first: View, views: seq<View>)
    requires first.Readable? && first.failsAt.None? && first.size <= |first.content|
    requires Appending(first.content, views)
    ensures var from := if first.size < 262_144 then 0 else first.size - 262_144;
            var seen := LastSeen(first.content, views);
            && from <= |first.content| <= |seen|
            && PollAll(-1, [first] + views) == (from + Consumed(seen[from..]), Lines(seen[from..]))
  {
    hide LineLength, Lines, Consumed;
    var from := StartOf(-1, first.size);
    assert ([first] + views)[1..] == views;
    assert Window(first, from) == first.content[from..];
    assert Poll(-1, first) == (from + Consumed(first.content[from..]), Lines(first.content[from..]));
    TailingIsSplitting(first.content, from, views);
  }

  /** A file that has become shorter than the offset is read again from its beginning. */
  lemma ShrunkFileRestarts(offset: nat, view: View)
    requires view.Readable? && view.failsAt.None? && view.size < offset
    ensures Poll(offset, view) == (Consumed(view.content) as int, Lines(view.content))
  {
    assert Window(view, 0) == view.content;
  }

  // ---- truncation ----

  /** A time during which the log grows: the poll that finds it, and the polls after. */
  datatype Stretch = Stretch(first: View, more: seq<View>) {
    ghost predicate Grows() {
      && first.Readable? && first.failsAt.None? && first.size <= |first.content|
      && Appending(first.content, more)
    }

    function Seen(): Bytes
      requires first.Readable?
    {
      LastSeen(first.content, more)
    }
  }

  function Polls(stretches: seq<Stretch>): seq<View> {
    if stretches == [] then [] else [stretches[0].first] + stretches[0].more + Polls(stretches[1..])
  }

  function LinesOfAll(stretches: seq<Stretch>): seq<Bytes>
    requires forall i | 0 <= i < |stretches| :: stretches[i].first.Readable?
  {
    if stretches == [] then [] else Lines(stretches[0].Seen()) + LinesOfAll(stretches[1..])
  }

  /** Each stretch is first found when the file is shorter than what was consumed of the one
      before it. */
  ghost predicate Truncated(consumed: nat, stretches: seq<Stretch>)
    decreases |stretches|
  {
    stretches == [] ||
    (stretches[0].Grows() && stretches[0].first.size < consumed &&
     Truncated(Consumed(stretches[0].Seen()), stretches[1..]))
  }

  lemma {:induction false} TruncatedIsReadable(consumed: nat, stretches: seq<Stretch>)
    requires Truncated(consumed, stretches)
    ensures forall i | 0 <= i < |stretches| :: stretches[i].first.Readable?
    decreases |stretches|
  {
    if stretches != [] {
      TruncatedIsReadable(Consumed(stretches[0].Seen()), stretches[1..]);
      assert forall i | 0 < i < |stretches| :: stretches[i] == stretches[1..][i - 1];
    }
  }

  lemma {:induction false} PollAllConcat(offset: int, a: seq<View>, b: seq<View>)
    ensures var first := PollAll(offset, a);
            var rest := PollAll(first.0, b);
            PollAll(offset, a + b) == (rest.0, first.1 + rest.1)
    decreases |a|
  {
    hide Poll;
    if a == [] {
      assert a + b == b;
      assert [] + PollAll(offset, b).1 == PollAll(offset, b).1;
    } else {
      assert (a + b)[1..] == a[1..] + b;
      var head := Poll(offset, a[0]);
      PollAllConcat(head.0, a[1..], b);
      var first := PollAll(head.0, a[1..]);
      var rest := PollAll(first.0, b);
      assert head.1 + (first.1 + rest.1) == head.1 + first.1 + rest.1;
    }
  }

  /** A log that is truncated any number of times, and grows in between: each stretch is
      published as the complete lines it had when it was last seen, from its beginning. */
  lemma {:induction false} TruncatedLogIsReadAfresh(offset: nat, stretches: seq<Stretch>)
    requires Truncated(offset, stretches)
    ensures forall i | 0 <= i < |stretches| :: stretches[i].first.Readable?
    ensures PollAll(offset, Polls(stretches)).1 == LinesOfAll(stretches)
    decreases |stretches|
  {
    TruncatedIsReadable(offset, stretches);
    hide Lines, Consumed, LineLength, Poll;
    if stretches != [] {
      var s, rest := stretches[0], stretches[1..];
      StretchIsReadAfresh(offset, s);
      TruncatedLogIsReadAfresh(Consumed(s.Seen()), rest);
      PollAllConcat(offset, [s.first] + s.more, Polls(rest));
    }
  }

  lemma StretchIsReadAfresh(offset: nat, s: Stretch)
    requires s.Grows() && s.first.size < offset
    ensures PollAll(offset, [s.first] + s.more) == (Consumed(s.Seen()) as int, Lines(s.Seen()))
  {
    hide Lines, Consumed, LineLength, Poll;
    ShrunkFileRestarts(offset, s.first);
    assert ([s.first] + s.more)[1..] == s.more;
    assert s.first.content[0..] == s.first.content && s.Seen()[0..] == s.Seen();
    TailingIsSplitting(s.first.content, 0, s.more);
  }

  /** A read that fails before the end keeps the bytes of the line it broke off. The following
      poll then publishes exactly the missing lines if and only if the failure struck between
      two lines, or no line has been completed since. */
  lemma FailedReadLosesAPartialLine(offset: nat, at: nat, content: Bytes)
    requires offset <= at <= |content|
    ensures var broken := Poll(offset, Readable(|content|, content, Some(at)));
            var next := Poll(broken.0, Readable(|content|, content, None));
            broken.1 + next.1 == Lines(content[offset..]) <==>
            Rest(content[offset..at]) == [] || NEWLINE !in content[at..]
  {
    hide Lines, Consumed, Rest, LineLength;
    var a, b := content[offset..at], content[at..];
    BrokenPoll(offset, at, content);
    hide Poll;
    assert content[offset..] == a + b;
    LinesOfGrowth(a, b);
    RestHasNoLine(a);
    LostLine(Lines(a), Rest(a), b);
  }

  /** A log of one line, "x" and a newline, whose first read breaks off after the "x": the next
      poll publishes an empty line, and the line itself is lost. */
  lemma BrokenReadLosesTheLine(x: Byte)
    requires x != NEWLINE
    ensures var log := [x, NEWLINE];
      && Poll(0, Readable(2, log, Some(1))) == (1, [])
      && Poll(1, Readable(2, log, None)) == (2, [[NEWLINE]])
      && Lines(log) == [log]
  {
    var log := [x, NEWLINE];
    assert log[1..] == [NEWLINE] && log[..1] == [x] && [NEWLINE][1..] == [] && [x][1..] == [];
    assert LineLength([NEWLINE]) == 1 && LineLength(log) == 2 && LineLength([x]) == 0;
    assert [NEWLINE][..1] == [NEWLINE] && log[..2] == log && log[2..] == [];
    assert Window(Readable(2, log, Some(1)), 0) == [x] && Window(Readable(2, log, None), 1) == [NEWLINE];
    assert Lines([NEWLINE]) == [[NEWLINE]] && Consumed([NEWLINE]) == 1;
  }

  lemma BrokenPoll(offset: nat, at: nat, content: Bytes)
    requires offset <= at <= |content|
    ensures Poll(offset, Readable(|content|, content, Some(at))) == (at, Lines(content[offset..at]))
    ensures Poll(at, Readable(|content|, content, None)).1 == Lines(content[at..])
  {
    hide Lines, Consumed;
    assert Window(Readable(|content|, content, Some(at)), offset) == content[offset..at];
    assert Window(Readable(|content|, content, None), at) == content[at..];
  }

  lemma LostLine(before: seq<Bytes>, rest: Bytes, b: Bytes)
    requires LineLength(rest) == 0
    ensures before + Lines(b) == before + Lines(rest + b) <==> rest == [] || NEWLINE !in b
  {
    LineLengthConcat(rest, b);
    LineLengthFinds(b);
    var n := LineLength(b);
    if rest == [] {
      assert rest + b == b;
    } else if n > 0 {
      hide LineLength;
      assert b[n - 1] in b;
      assert (before + Lines(b))[|before|] == b[..n];
      assert (before + Lines(rest + b))[|before|] == (rest + b)[..|rest| + n];
    }
  }

  // ---- the text of a line ----

  /** `strings.TrimRight(line, "\r\n")`. */
  function TrimRight(line: Bytes): Bytes {
    if line != [] && (line[|line| - 1] == NEWLINE || line[|line| - 1] == RETURN) then TrimRight(line[..|line| - 1])
    else line
  }

  /** What is left of a line: its longest beginning that does not end in a line break. */
  lemma {:induction false} TrimRightCuts(text: Bytes, ending: Bytes)
    requires text == [] || (text[|text| - 1] != 10 && text[|text| - 1] != 13)
    requires forall i | 0 <= i < |ending| :: ending[i] == 10 || ending[i] == 13
    ensures TrimRight(text + ending) == text
    decreases |ending|
  {
    var line := text + ending;
    if ending == [] {
      assert line == text;
    } else {
      assert line[..|line| - 1] == text + ending[..|ending| - 1];
      assert line[|line| - 1] == ending[|ending| - 1];
      TrimRightCuts(text, ending[..|ending| - 1]);
    }
  }
}
