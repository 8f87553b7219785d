/** The console hub: a bounded ring of recent lines, lossy subscribers and the log reader
    that feeds them (backend/internal/console/hub.go). */
module Hub {
  import opened Wrappers
  import opened Ansi
  import opened Tail

  datatype Line = Line(sequence: nat, timestamp: int, text: Bytes)

  const CHANNEL_BUFFER: nat := 128

  /** `small` is `large` with some elements left out. */
  predicate Subsequence<T(==)>(small: seq<T>, large: seq<T>) {
    small == [] ||
    (large != [] &&
     if small[|small| - 1] == large[|large| - 1] then Subsequence(small[..|small| - 1], large[..|large| - 1])
     else Subsequence(small, large[..|large| - 1]))
  }

  lemma {:induction false} SubsequenceGrows<T>(small: seq<T>, large: seq<T>, x: T)
    requires Subsequence(small, large)
    ensures Subsequence(small, large + [x])
    decreases |large|, 1
  {
    assert (large + [x])[..|large|] == large;
    if small != [] && small[|small| - 1] == x {
      SubsequenceShrinks(small, large);
    }
  }

  lemma {:induction false} SubsequenceShrinks<T>(small: seq<T>, large: seq<T>)
    requires small != [] && Subsequence(small, large)
    ensures Subsequence(small[..|small| - 1], large)
    decreases |large|, 0
  {
    var front := large[..|large| - 1];
    assert large == front + [large[|large| - 1]];
    if small[|small| - 1] == large[|large| - 1] {
      SubsequenceGrows(small[..|small| - 1], front, large[|large| - 1]);
    } else {
      SubsequenceShrinks(small, front);
      SubsequenceGrows(small[..|small| - 1], front, large[|large| - 1]);
    }
  }

  lemma SubsequenceSnoc<T>(small: seq<T>, large: seq<T>, x: T)
    requires Subsequence(small, large)
    ensures Subsequence(small + [x], large + [x])
  {
    assert (small + [x])[..|small|] == small && (large + [x])[..|large|] == large;
  }

  /** A subscriber's buffered channel. `since` counts what was published before it subscribed,
      `offered` is what the hub has offered it, `taken` what its reader has received. */
  class Channel {
    var buffer: seq<Line>
    var closed: bool
    ghost const since: nat
    ghost var offered: seq<Line>
    ghost var taken: seq<Line>
    ghost var dropped: bool

    ghost predicate Valid()
      reads this
    {
      && |buffer| <= CHANNEL_BUFFER
      && Subsequence(taken + buffer, offered)
      && (!dropped ==> taken + buffer == offered)
    }

    constructor (ghost since: nat)
      ensures Valid() && !closed && !dropped && buffer == [] && offered == [] && taken == [] && this.since == since
    {
      this.since := since;
      buffer, closed, offered, taken, dropped := [], false, [], [], false;
    }

    /** The non-blocking send of `publish`; sending on a closed channel would panic. */
    method Offer(line: Line)
      requires Valid() && !closed
      modifies this
      ensures Valid() && !closed && taken == old(taken) && offered == old(offered) + [line]
      ensures if |old(buffer)| < 128 then buffer == old(buffer) + [line] && dropped == old(dropped)
              else buffer == old(buffer) && dropped
    {
      if |buffer| < CHANNEL_BUFFER {
        SubsequenceSnoc(taken + buffer, offered, line);
        assert taken + (buffer + [line]) == taken + buffer + [line];
        buffer := buffer + [line];
      } else {
        SubsequenceGrows(taken + buffer, offered, line);
        dropped := true;
      }
      offered := offered + [line];
    }

    /** Closing twice would panic. */
    method Close()
      requires Valid() && !closed
      modifies this`closed
      ensures Valid() && closed
    {
      closed := true;
    }

    method Receive() returns (line: Option<Line>)
      requires Valid()
      modifies this`buffer, this`taken
      ensures Valid()
      ensures old(buffer) == [] ==> line == None && buffer == [] && taken == old(taken)
      ensures old(buffer) != [] ==>
        line == Some(old(buffer)[0]) && buffer == old(buffer)[1..] && taken == old(taken) + [old(buffer)[0]]
    {
      if buffer == [] {
        return None;
      }
      line := Some(buffer[0]);
      assert taken + [buffer[0]] + buffer[1..] == taken + buffer;
      taken := taken + [buffer[0]];
      buffer := buffer[1..];
    }
  }

  /** Lines are numbered one, two, three, and their texts are clean. */
  ghost predicate Numbered(lines: seq<Line>) {
    forall k | 0 <= k < |lines| :: lines[k].sequence == k + 1 && Strip(lines[k].text) == lines[k].text
  }

  function Texts(lines: seq<Line>): (texts: seq<Bytes>)
    ensures |texts| == |lines|
  {
    seq(|lines|, i requires 0 <= i < |lines| => lines[i].text)
  }

  /** The stored texts of raw lines. */
  function Stored(raw: seq<Bytes>): seq<Bytes> {
    if raw == [] then [] else [Sanitize(TrimRight(raw[0]))] + Stored(raw[1..])
  }

  lemma NumberedMore(published: seq<Line>, line: Line)
    requires Numbered(published) && line.sequence == |published| + 1 && Strip(line.text) == line.text
    ensures Numbered(published + [line])
  {
    hide Strip;
  }

  // The ring's count and lines before and after a push.
  lemma LatestAfter(published: seq<Line>, line: Line, capacity: nat, count: nat, held: seq<Line>)
    requires capacity > 0 && count == Min(|published|, capacity) && held == published[|published| - count..]
    ensures Min(count + 1, capacity) == Min(|published| + 1, capacity)
    ensures (published + [line])[|published| + 1 - Min(count + 1, capacity)..] ==
            (if count == capacity then held[1..] else held) + [line]
  {
    var all := published + [line];
    if count == capacity {
      assert all[|published| + 1 - capacity..] == published[|published| + 1 - capacity..] + [line];
    } else {
      assert held == published && all[0..] == all;
    }
  }

  /** A part of what was published stays that part, and one that reaches the end can go on. */
  lemma FedAfter(published: seq<Line>, line: Line, since: nat, offered: seq<Line>)
    requires since + |offered| <= |published| && offered == published[since..since + |offered|]
    ensures offered == (published + [line])[since..since + |offered|]
    ensures since + |offered| == |published| ==> offered + [line] == (published + [line])[since..]
  {
  }

  class ConsoleHub {
    const capacity: nat
    var lines: array<Line>
    var count: nat
    var next: nat
    var subscribers: set<Channel>
    ghost var published: seq<Line>
    ghost var channels: set<Channel>

    /** The ring holds exactly the latest lines, up to its capacity. */
    ghost predicate Ring()
      reads this`lines, this`count, this`next, this`published, lines
    {
      && capacity >= 100 && lines.Length == capacity
      && next == |published| && Numbered(published)
      && count == Min(|published|, capacity)
      && lines[..count] == published[|published| - count..]
    }

    /** A channel was offered exactly what was published since it subscribed, while it is open
        up to now, and closed means no longer subscribed. */
    ghost predicate Fed(c: Channel, published: seq<Line>)
      reads this`subscribers, c
    {
      && (c in subscribers <==> !c.closed)
      && c.since + |c.offered| <= |published|
      && c.offered == published[c.since..c.since + |c.offered|]
      && (!c.closed ==> c.since + |c.offered| == |published|)
    }

    /** `channels` are all that were ever subscribed. */
    ghost predicate Valid()
      reads this, lines, channels
    {
      && Ring() && subscribers <= channels
      && forall c | c in channels :: c.Valid() && Fed(c, published)
    }

    constructor (requested: nat)
      ensures Valid() && fresh(lines) && published == [] && subscribers == channels == {}
      ensures capacity == if requested < 100 then 100 else requested
    {
      capacity := if requested < 100 then 100 else requested;
      lines := new Line[if requested < 100 then 100 else requested];
      count, next, subscribers, channels, published := 0, 0, {}, {}, [];
    }

    /** `History` is a suffix of the ring, hence of everything published. */
    method History(limit: int) returns (result: seq<Line>)
      requires Valid()
      ensures |result| == if limit < 1 || limit > Min(|published|, capacity) then Min(|published|, capacity) else limit
      ensures result == published[|published| - |result|..]
    {
      var wanted := if limit < 1 || limit > count then count else limit;
      result := lines[count - wanted..count];
      assert result == lines[..count][count - wanted..];
    }

    method Subscribe() returns (channel: Channel)
      requires Valid()
      modifies this`subscribers, this`channels
      ensures Valid() && fresh(channel) && subscribers == old(subscribers) + {channel}
      ensures channels == old(channels) + {channel} && channel.since == |published|
      ensures !channel.closed && !channel.dropped
      ensures channel.offered == channel.buffer == channel.taken == []
    {
      channel := new Channel(|published|);
      subscribers, channels := subscribers + {channel}, channels + {channel};
    }

    /** The cancel function of `Subscribe`: closes the channel unless that was done already. What
        is buffered can still be received. */
    method Cancel(channel: Channel)
      requires Valid() && channel in channels
      modifies this`subscribers, channel`closed
      ensures Valid() && subscribers == old(subscribers) - {channel} && channel.closed
    {
      hide Numbered, Subsequence, Strip;
      if channel in subscribers {
        subscribers := subscribers - {channel};
        channel.Close();
      }
    }

    method CloseSubscribers()
      requires Valid()
      modifies this`subscribers, subscribers`closed
      ensures Valid() && subscribers == {}
    {
      hide Ring, Subsequence;
      var all := subscribers;
      while subscribers != {}
        invariant subscribers <= all && Valid()
        decreases subscribers
      {
        var c :| c in subscribers;
        subscribers := subscribers - {c};
        c.Close();
      }
    }

    /** `copy(lines, lines[1:])`. */
    method Shift()
      requires 0 < count <= lines.Length
      modifies lines
      ensures lines[..count - 1] == old(lines[..count])[1..]
    {
      forall i | 0 <= i < count - 1 {
        lines[i] := lines[i + 1];
      }
    }

    /** Store a line in the ring, shifting it when it is full. */
    method Keep(line: Line)
      requires Ring() && line.sequence == next + 1 && Strip(line.text) == line.text
      modifies this`count, this`next, this`published, lines
      ensures Ring() && published == old(published) + [line]
    {
      NumberedMore(published, line);
      LatestAfter(published, line, capacity, count, lines[..count]);
      hide Numbered, Strip, Min;
      next := next + 1;
      Push(line);
      published := published + [line];
    }

    /** The ring update of `publish`. */
    method Push(line: Line)
      requires capacity > 0 && lines.Length == capacity && count <= capacity
      modifies this`count, lines
      ensures count == Min(old(count) + 1, capacity)
      ensures lines[..count] ==
              (if old(count) == capacity then old(lines[..count])[1..] else old(lines[..count])) + [line]
    {
      if count == capacity {
        Shift();
        lines[count - 1] := line;
      } else {
        lines[count] := line;
        count := count + 1;
      }
    }

    /** Offer a line to every subscriber; a full buffer loses it. */
    method Broadcast(line: Line)
      requires forall c | c in subscribers :: c.Valid() && !c.closed
      modifies subscribers
      ensures forall c | c in subscribers ::
        && c.Valid() && !c.closed && c.taken == old(c.taken) && c.offered == old(c.offered) + [line]
        && (if |old(c.buffer)| < 128 then c.buffer == old(c.buffer) + [line] && c.dropped == old(c.dropped)
            else c.buffer == old(c.buffer) && c.dropped)
    {
      var todo := subscribers;
      while todo != {}
        invariant todo <= subscribers
        invariant forall c | c in todo ::
          c.Valid() && !c.closed && c.taken == old(c.taken) && c.offered == old(c.offered) &&
          c.buffer == old(c.buffer) && c.dropped == old(c.dropped)
        invariant forall c | c in subscribers - todo ::
          && c.Valid() && !c.closed && c.taken == old(c.taken) && c.offered == old(c.offered) + [line]
          && (if |old(c.buffer)| < 128 then c.buffer == old(c.buffer) + [line] && c.dropped == old(c.dropped)
              else c.buffer == old(c.buffer) && c.dropped)
        decreases todo
      {
        var c :| c in todo;
        c.Offer(line);
        todo := todo - {c};
      }
    }

    /** The text that `publish` stores. */
    method CleanText(raw: Bytes) returns (text: Bytes)
      ensures text == Sanitize(raw) && Strip(text) == text
    {
      StoredTextIsClean(raw);
      hide Strip;
      text := StripAnsi(raw);
      if |text| > MAX_TEXT {
        text := text[..MAX_TEXT] + ELLIPSIS;
      }
    }

    /** Broadcast the line that was just kept. */
    method Announce(line: Line, ghost before: seq<Line>)
      requires Ring() && published == before + [line] && subscribers <= channels
      requires forall c | c in channels :: c.Valid() && Fed(c, before)
      modifies subscribers
      ensures Valid()
      ensures forall c | c in subscribers ::
        && c.taken == old(c.taken)
        && (|old(c.buffer)| < 128 ==> c.dropped == old(c.dropped) && c.buffer == old(c.buffer) + [line])
    {
      hide Ring, Channel.Valid;
      Broadcast(line);
      forall c | c in channels
        ensures c.Valid() && Fed(c, published)
      {
        FedAfter(before, line, c.since, old(c.offered));
      }
    }

    /** `publish`: number, keep and broadcast one raw line. */
    method Publish(raw: Bytes, now: int)
      requires Valid()
      modifies this`count, this`next, this`published, lines, subscribers
      ensures Valid() && published == old(published) + [Line(|old(published)| + 1, now, Sanitize(raw))]
      ensures forall c | c in subscribers ::
        && c.taken == old(c.taken)
        && (|old(c.buffer)| < 128 ==>
              c.dropped == old(c.dropped) && c.buffer == old(c.buffer) + [published[|old(published)|]])
    {
      assert next == |published|;
      hide Valid, Strip, Sanitize;
      var text := CleanText(raw);
      var line := Line(next + 1, now, text);
      PublishLine(line);
      assert published[|old(published)|] == line;
    }

    /** The part of `publish` under the lock. */
    method PublishLine(line: Line)
      requires Valid() && line.sequence == next + 1 && Strip(line.text) == line.text
      modifies this`count, this`next, this`published, lines, subscribers
      ensures Valid() && published == old(published) + [line]
      ensures forall c | c in subscribers ::
        && c.taken == old(c.taken)
        && (|old(c.buffer)| < 128 ==> c.dropped == old(c.dropped) && c.buffer == old(c.buffer) + [line])
    {
      hide Strip, Ring, Channel.Valid, Fed;
      ghost var before := published;
      Keep(line);
      Announce(line, before);
    }

    /** `readAvailable`: publish every complete line from the offset on and return the new
        offset, exactly as `Poll` says. */
    method ReadAvailable(offset: int, view: View, now: int) returns (after: int)
      requires Valid() && offset >= -1
      modifies this`count, this`next, this`published, lines, subscribers
      ensures Valid() && after == Poll(offset, view).0
      ensures |published| >= |old(published)| && published[..|old(published)|] == old(published)
      ensures Texts(published[|old(published)|..]) == Stored(Poll(offset, view).1)
      ensures forall c | c in subscribers ::
        && c.taken == old(c.taken)
        && (|old(c.buffer)| + |published| - |old(published)| <= 128 ==>
              c.dropped == old(c.dropped) && c.buffer == old(c.buffer) + published[|old(published)|..])
    {
      hide Valid, Texts, Stored, Lines, Consumed;
      NothingPublished(published);
      NoLinesStored();
      if view.Unreadable? {
        return offset;
      }
      var from := offset;
      if from < 0 {
        from := view.size - BACKLOG;
        if from < 0 {
          from := 0;
        }
      }
      if view.size < from {
        from := 0;
      }
      if view.Unpositioned? {
        return from;
      }
      after := Drain(from, Window(view, from), view.failsAt.Some?, now);
    }

    /** `Run`: poll after poll until the context ends, then close the subscribers. */
    method Run(views: seq<View>, clock: nat -> int)
      requires Valid()
      modifies this, lines, channels
      ensures Valid() && subscribers == {}
      ensures |published| >= |old(published)| && published[..|old(published)|] == old(published)
      ensures Texts(published[|old(published)|..]) == Stored(PollAll(-1, views).1)
      ensures forall log: seq<Bytes>, ends: seq<bool> :: GrowsTo(views, log, ends) ==>
        Shows(Texts(published[|old(published)|..]), log)
    {
      assert subscribers <= channels;
      hide Valid, Texts, Stored, GrowsTo, Shows, Poll;
      ghost var before := published;
      var offset: int := -1;
      NothingPublished(published);
      assert views[0..] == views;
      for i := 0 to |views|
        invariant Valid() && offset >= -1 && subscribers == old(subscribers) <= channels == old(channels)
        invariant lines == old(lines)
        invariant |published| >= |before| && published[..|before|] == before
        invariant Stored(PollAll(-1, views).1) ==
                  Texts(published[|before|..]) + Stored(PollAll(offset, views[i..]).1)
      {
        ghost var so := published;
        PollsFirst(offset, views, i);
        offset := ReadAvailable(offset, views[i], clock(i));
        MorePublished(so, published, |before|);
        Regrouped(Texts(so[|before|..]), Texts(published[|so|..]), Stored(PollAll(offset, views[i + 1..]).1));
      }
      NoneLeft(offset, views);
      ghost var shown := Texts(published[|before|..]);
      assert shown + [] == shown;
      forall log: seq<Bytes>, ends: seq<bool> | GrowsTo(views, log, ends)
        ensures Shows(Texts(published[|before|..]), log)
      {
        GrownLogShows(views, log, ends);
      }
      CloseSubscribers();
    }

    /** The reading loop: publish the complete lines of what can be read. A read that fails
        counts the unfinished line it had begun; one that ends gives it back. */
    method Drain(from: nat, readable: Bytes, broken: bool, now: int) returns (after: int)
      requires Valid()
      modifies this`count, this`next, this`published, lines, subscribers
      ensures Valid() && after == if broken then from + |readable| else from + Consumed(readable)
      ensures |published| >= |old(published)| && published[..|old(published)|] == old(published)
      ensures Texts(published[|old(published)|..]) == Stored(Lines(readable))
      ensures forall c | c in subscribers ::
        && c.taken == old(c.taken)
        && (|old(c.buffer)| + |published| - |old(published)| <= 128 ==>
              c.dropped == old(c.dropped) && c.buffer == old(c.buffer) + published[|old(published)|..])
    {
      hide Valid, Texts, Stored, Sanitize, TrimRight, Lines, Consumed;
      var unread := readable;
      after := from;
      NothingPublished(published);
      while LineLength(unread) > 0
        invariant Valid()
        invariant |published| >= |old(published)| && published[..|old(published)|] == old(published)
        invariant after + Consumed(unread) == from + Consumed(readable) && after + |unread| == from + |readable|
        invariant Stored(Lines(readable)) == Texts(published[|old(published)|..]) + Stored(Lines(unread))
        invariant forall c | c in subscribers ::
          && c.taken == old(c.taken)
          && (|old(c.buffer)| + |published| - |old(published)| <= 128 ==>
                c.dropped == old(c.dropped) && c.buffer == old(c.buffer) + published[|old(published)|..])
        decreases |unread|
      {
        var n := LineLength(unread);
        ghost var so := published;
        NextStored(unread);
        Publish(TrimRight(unread[..n]), now);
        OnePublished(so, published[|so|], |old(published)|);
        after := after + n;
        unread := unread[n..];
      }
      NoneStored(unread);
      if broken {
        after := after + |unread|;
      }
    }
  }

  /** What a subscriber has received and what is buffered for it is, in order, a part of what was
      published from its subscription on: to the present while it is open, to its end when it is
      closed. It is all of that unless the buffer was full when a line came. */
  lemma SubscribersFollow(hub: ConsoleHub, c: Channel)
    requires hub.Valid() && c in hub.channels
    ensures var until := c.since + |c.offered|;
      && until <= |hub.published| && (c in hub.subscribers ==> until == |hub.published|)
      && Subsequence(c.taken + c.buffer, hub.published[c.since..until])
      && (!c.dropped ==> c.taken + c.buffer == hub.published[c.since..until])
  {
  }

  /** A subscriber takes its next line; the hub is not involved. */
  method TakeLine(hub: ConsoleHub, c: Channel) returns (line: Option<Line>)
    requires hub.Valid() && c in hub.channels
    modifies c`buffer, c`taken
    ensures hub.Valid()
    ensures line.Some? <==> old(c.buffer) != []
    ensures line.Some? ==> c.taken == old(c.taken) + [line.value] && [line.value] + c.buffer == old(c.buffer)
    ensures line.None? ==> c.taken == old(c.taken) && c.buffer == old(c.buffer)
  {
    hide Subsequence, Numbered, Strip, ConsoleHub.Ring;
    line := c.Receive();
  }

  // ---- from the log to the subscribers ----

  /** A log: each line followed by a line feed, some with a carriage return before it. */
  function LogOf(log: seq<Bytes>, ends: seq<bool>): Bytes
    requires |log| == |ends|
  {
    if log == [] then [] else log[0] + ((if ends[0] then [13, 10] else [10]) + LogOf(log[1..], ends[1..]))
  }

  /** The polled file is never longer than the backlog when it is first seen, only grows, and is in
      the end the log of these visible lines. */
  ghost predicate GrowsTo(views: seq<View>, log: seq<Bytes>, ends: seq<bool>) {
    && |log| == |ends| && (forall i | 0 <= i < |log| :: AllVisible(log[i]))
    && views != [] && views[0].Readable? && views[0].failsAt.None?
    && views[0].size <= |views[0].content| && views[0].size <= 262_144
    && Appending(views[0].content, views[1..])
    && LastSeen(views[0].content, views[1..]) == LogOf(log, ends)
  }

  /** The texts are those lines, one for one; of a line longer than 8192 bytes the beginning, and an
      ellipsis. */
  ghost predicate Shows(texts: seq<Bytes>, log: seq<Bytes>) {
    && |texts| == |log|
    && forall i | 0 <= i < |log| ::
         texts[i] == if |log[i]| <= 8192 then log[i] else log[i][..8192] + [0xe2, 0x80, 0xa6]
  }

  lemma GrownLogShows(views: seq<View>, log: seq<Bytes>, ends: seq<bool>)
    requires GrowsTo(views, log, ends)
    ensures Shows(Stored(PollAll(-1, views).1), log)
  {
    hide Lines, Consumed, LogOf, Shows, Appending, LastSeen, Poll;
    var seen := LogOf(log, ends);
    assert views == [views[0]] + views[1..];
    TailingFromTheStart(views[0], views[1..]);
    assert seen[0..] == seen;
    LogShows(log, ends);
  }

  lemma {:induction false} LogShows(log: seq<Bytes>, ends: seq<bool>)
    requires |log| == |ends| && forall i | 0 <= i < |log| :: AllVisible(log[i])
    ensures Shows(Stored(Lines(LogOf(log, ends))), log)
    decreases |log|
  {
    if log == [] {
      NothingLogged();
    } else {
      var line, ending, rest := log[0], if ends[0] then [13, 10] else [10], LogOf(log[1..], ends[1..]);
      assert LogOf(log, ends) == line + (ending + rest);
      hide LogOf, Lines, Sanitize, TrimRight, Stored, Shows;
      LogShows(log[1..], ends[1..]);
      FirstLine(line, ending, rest);
      FirstText(line, ending);
      ShownFirst(log, line + ending, Lines(rest));
    }
  }

  lemma NothingLogged()
    ensures LogOf([], []) == [] && Shows(Stored(Lines([])), [])
  {
  }

  lemma ShownFirst(log: seq<Bytes>, first: Bytes, rest: seq<Bytes>)
    requires log != [] && Shows(Stored(rest), log[1..])
    requires Sanitize(TrimRight(first)) == if |log[0]| <= 8192 then log[0] else log[0][..8192] + [0xe2, 0x80, 0xa6]
    ensures Shows(Stored([first] + rest), log)
  {
    hide Sanitize, TrimRight;
    var raw := [first] + rest;
    assert raw[1..] == rest;
    assert Stored(raw) == [Sanitize(TrimRight(first))] + Stored(rest);
    hide Stored;
    forall i | 0 < i < |log|
      ensures log[i] == log[1..][i - 1]
    {
    }
  }

  lemma FirstLine(line: Bytes, ending: Bytes, rest: Bytes)
    requires AllVisible(line) && (ending == [10] || ending == [13, 10])
    ensures Lines(line + (ending + rest)) == [line + ending] + Lines(rest)
  {
    var s, first := line + (ending + rest), line + ending;
    assert s == first + rest;
    OneLine(line, ending);
    LineLengthConcat(first, rest);
    hide LineLength;
    assert s[..|first|] == first && s[|first|..] == rest;
  }

  lemma OneLine(line: Bytes, ending: Bytes)
    requires AllVisible(line) && (ending == [10] || ending == [13, 10])
    ensures LineLength(line + ending) == |line + ending|
  {
    LineLengthConcat(line, ending);
    LineLengthFinds(line);
    assert ending == [13] + [10] || ending == [10];
    assert [13, 10][1..] == [10];
    assert LineLength(ending) == |ending|;
  }

  lemma FirstText(line: Bytes, ending: Bytes)
    requires AllVisible(line) && (ending == [10] || ending == [13, 10])
    ensures Sanitize(TrimRight(line + ending)) == if |line| <= 8192 then line else line[..8192] + [0xe2, 0x80, 0xa6]
  {
    TrimRightCuts(line, ending);
    if |line| <= 8192 {
      VisibleTextIsStored(line);
    } else {
      LongTextIsCut(line);
    }
  }

  lemma PollsFirst(offset: int, views: seq<View>, i: nat)
    requires i < |views|
    ensures var first := Poll(offset, views[i]);
            Stored(PollAll(offset, views[i..]).1) == Stored(first.1) + Stored(PollAll(first.0, views[i + 1..]).1)
    ensures offset >= -1 ==> Poll(offset, views[i]).0 >= -1
  {
    assert views[i..][1..] == views[i + 1..];
    StoredConcat(Poll(offset, views[i]).1, PollAll(Poll(offset, views[i]).0, views[i + 1..]).1);
    hide Lines, Consumed, Window, Stored;
  }

  lemma {:induction false} StoredConcat(a: seq<Bytes>, b: seq<Bytes>)
    ensures Stored(a + b) == Stored(a) + Stored(b)
    decreases |a|
  {
    hide Sanitize, TrimRight;
    if a == [] {
      assert a + b == b;
    } else {
      assert (a + b)[1..] == a[1..] + b;
      StoredConcat(a[1..], b);
    }
  }

  lemma MorePublished(so: seq<Line>, published: seq<Line>, from: nat)
    requires from <= |so| <= |published| && published[..|so|] == so
    ensures Texts(published[from..]) == Texts(so[from..]) + Texts(published[|so|..])
    ensures published[..from] == so[..from]
  {
    assert published == so + published[|so|..];
  }

  lemma Regrouped(a: seq<Bytes>, b: seq<Bytes>, c: seq<Bytes>)
    ensures a + (b + c) == (a + b) + c
  {
  }

  lemma NoneLeft(offset: int, views: seq<View>)
    ensures Stored(PollAll(offset, views[|views|..]).1) == []
  {
  }

  lemma NothingPublished(published: seq<Line>)
    ensures Texts(published[|published|..]) == []
  {
  }

  lemma OnePublished(published: seq<Line>, line: Line, from: nat)
    requires from <= |published|
    ensures Texts((published + [line])[from..]) == Texts(published[from..]) + [line.text]
  {
  }

  lemma NextStored(unread: Bytes)
    requires LineLength(unread) > 0
    ensures var n := LineLength(unread);
            && Stored(Lines(unread)) == [Sanitize(TrimRight(unread[..n]))] + Stored(Lines(unread[n..]))
            && Consumed(unread) == n + Consumed(unread[n..])
  {
  }

  lemma NoLinesStored()
    ensures Stored([]) == []
  {
  }

  lemma NoneStored(unread: Bytes)
    requires LineLength(unread) == 0
    ensures Stored(Lines(unread)) == [] && Consumed(unread) == 0
  {
  }
}
