/** Terminal control sequences in log lines: `stripANSI` and the text `publish` stores
    (backend/internal/console/hub.go). */
module Ansi {
  import opened Wrappers

  const ESC: Byte := 0x1b
  const BRACKET: Byte := 0x5b
  const TAB: Byte := 0x09

  predicate Visible(b: Byte) {
    b >= 0x20 || b == TAB
  }

  /** The final byte of a control sequence, section 5.4 of ECMA-48. */
  predicate Final(b: Byte) {
    0x40 <= b <= 0x7e
  }

  /** What follows the control sequence whose parameters start here; nothing if it never ends. */
  function AfterSequence(s: Bytes): (rest: Bytes)
    ensures |rest| <= |s|
  {
    if s == [] then [] else if Final(s[0]) then s[1..] else AfterSequence(s[1..])
  }

  function Strip(s: Bytes): Bytes
    decreases |s|
  {
    if s == [] then []
    else if s[0] != ESC then (if Visible(s[0]) then [s[0]] else []) + Strip(s[1..])
    else if |s| > 1 && s[1] == BRACKET then Strip(AfterSequence(s[2..]))
    else Strip(s[1..])
  }

  /** The inner loop of `stripANSI`: the index of the next final byte, if there is one. */
  method FindFinal(value: Bytes, start: nat) returns (index: nat)
    requires start <= |value|
    ensures start <= index <= |value|
    ensures AfterSequence(value[start..]) == if index < |value| then value[index + 1..] else []
  {
    index := start;
    while index < |value|
      invariant start <= index <= |value|
      invariant AfterSequence(value[start..]) == AfterSequence(value[index..])
    {
      assert value[index..][1..] == value[index + 1..];
      if Final(value[index]) {
        break;
      }
      index := index + 1;
    }
  }

  method StripAnsi(value: Bytes) returns (result: Bytes)
    ensures result == Strip(value)
  {
    assert Strip([]) == [];
    hide Strip, AfterSequence, Visible;
    result := [];
    var index := 0;
    while index < |value|
      invariant 0 <= index <= |value|
      invariant result + Strip(value[index..]) == Strip(value)
    {
      StripAt(value, index);
      if value[index] != ESC {
        if Visible(value[index]) {
          Regroup(result, [value[index]], Strip(value[index + 1..]));
          result := result + [value[index]];
        }
      } else if index + 1 < |value| && value[index + 1] == BRACKET {
        index := FindFinal(value, index + 2);
        if index == |value| {
          return;
        }
      }
      index := index + 1;
    }
    assert value[index..] == [];
  }

  lemma Regroup(a: Bytes, b: Bytes, c: Bytes)
    ensures a + (b + c) == (a + b) + c
  {
  }

  lemma StripAt(value: Bytes, index: nat)
    requires index < |value|
    ensures value[index] != ESC && Visible(value[index]) ==>
      Strip(value[index..]) == [value[index]] + Strip(value[index + 1..])
    ensures value[index] != ESC && !Visible(value[index]) ==> Strip(value[index..]) == Strip(value[index + 1..])
    ensures value[index] == ESC && !(index + 1 < |value| && value[index + 1] == BRACKET) ==>
      Strip(value[index..]) == Strip(value[index + 1..])
    ensures value[index] == ESC && index + 1 < |value| && value[index + 1] == BRACKET ==>
      Strip(value[index..]) == Strip(AfterSequence(value[index + 2..]))
  {
    assert value[index..][1..] == value[index + 1..];
    assert index + 1 < |value| ==> value[index..][2..] == value[index + 2..];
    hide AfterSequence;
  }

  predicate AllVisible(s: Bytes) {
    forall i | 0 <= i < |s| :: Visible(s[i])
  }

  lemma {:induction false} StripIsVisible(s: Bytes)
    ensures AllVisible(Strip(s))
    decreases |s|
  {
    if s != [] {
      StripIsVisible(s[1..]);
      if s[0] == ESC && |s| > 1 && s[1] == BRACKET {
        StripIsVisible(AfterSequence(s[2..]));
      }
    }
  }

  /** Visible text is left alone, up to where anything else starts. */
  lemma {:induction false} StripKeepsVisible(a: Bytes, rest: Bytes)
    requires AllVisible(a)
    ensures Strip(a + rest) == a + Strip(rest)
    decreases |a|
  {
    if a == [] {
      assert a + rest == rest;
    } else {
      assert (a + rest)[1..] == a[1..] + rest;
      StripKeepsVisible(a[1..], rest);
      assert a == [a[0]] + a[1..];
    }
  }

  lemma {:induction false} SequenceEnds(params: Bytes, final: Byte, rest: Bytes)
    requires Final(final) && forall i | 0 <= i < |params| :: !Final(params[i])
    ensures AfterSequence(params + [final] + rest) == rest
    decreases |params|
  {
    var s := params + [final] + rest;
    if params == [] {
      assert s[1..] == rest;
    } else {
      assert s[1..] == params[1..] + [final] + rest;
      SequenceEnds(params[1..], final, rest);
    }
  }

  /** A control sequence disappears and the text around it stays. */
  lemma ControlSequenceIsStripped(text: Bytes, params: Bytes, final: Byte, rest: Bytes)
    requires AllVisible(text) && Final(final) && forall i | 0 <= i < |params| :: !Final(params[i])
    ensures Strip(text + ([ESC, BRACKET] + (params + [final] + rest))) == text + Strip(rest)
  {
    var s := [ESC, BRACKET] + (params + [final] + rest);
    StripKeepsVisible(text, s);
    assert s[2..] == params + [final] + rest;
    SequenceEnds(params, final, rest);
  }

  /** Bytes outside 0x40 to 0x7e. */
  predicate NoneFinal(s: Bytes) {
    forall i | 0 <= i < |s| :: s[i] < 64 || s[i] > 126
  }

  /** Every way a line can begin: tabs and bytes from 32 on stay; other control bytes go, and so does
      an escape that starts no sequence; a sequence goes up to its final byte, or to the end if it
      has none. */
  lemma EveryBeginning(b: Byte, rest: Bytes)
    ensures b == 9 || b >= 32 ==> Strip([b] + rest) == [b] + Strip(rest)
    ensures b < 32 && b != 9 && (b != 27 || rest == [] || rest[0] != 91) ==> Strip([b] + rest) == Strip(rest)
    ensures forall params: Bytes, final: Byte, tail: Bytes ::
      rest == [91] + (params + [final] + tail) && NoneFinal(params) && 64 <= final <= 126 ==>
        Strip([27] + rest) == Strip(tail)
    ensures forall params: Bytes :: rest == [91] + params && NoneFinal(params) ==> Strip([27] + rest) == []
  {
    assert ([b] + rest)[1..] == rest && ([27] + rest)[1..] == rest;
    forall params: Bytes, final: Byte, tail: Bytes
      | rest == [91] + (params + [final] + tail) && NoneFinal(params) && 64 <= final <= 126
      ensures Strip([27] + rest) == Strip(tail)
    {
      assert ([27] + rest)[2..] == params + [final] + tail;
      SequenceEnds(params, final, tail);
    }
    forall params: Bytes | rest == [91] + params && NoneFinal(params)
      ensures Strip([27] + rest) == []
    {
      assert ([27] + rest)[2..] == params;
      SequenceNeverEnds(params);
    }
  }

  lemma {:induction false} SequenceNeverEnds(params: Bytes)
    requires NoneFinal(params)
    ensures AfterSequence(params) == []
    decreases |params|
  {
    if params != [] {
      SequenceNeverEnds(params[1..]);
    }
  }

  const MAX_TEXT: nat := 8192

  /** The bytes of U+2026. */
  const ELLIPSIS: Bytes := [0xe2, 0x80, 0xa6]

  /** The text `publish` stores for a raw line. */
  function Sanitize(raw: Bytes): Bytes {
    var text := Strip(raw);
    if |text| > MAX_TEXT then text[..MAX_TEXT] + ELLIPSIS else text
  }

  /** Stripping stored text again changes nothing. */
  lemma StoredTextIsClean(raw: Bytes)
    ensures forall b | b in Sanitize(raw) :: b == 9 || b >= 32
    ensures AllVisible(Sanitize(raw)) && Strip(Sanitize(raw)) == Sanitize(raw)
    ensures |Sanitize(raw)| <= 8195
  {
    StripIsVisible(raw);
    StripKeepsVisible(Sanitize(raw), []);
    assert Sanitize(raw) + [] == Sanitize(raw);
  }

  /** Longer visible text is cut after 8192 bytes, and three that mark the cut (U+2026) follow. */
  lemma LongTextIsCut(raw: Bytes)
    requires AllVisible(raw) && |raw| > 8192
    ensures Sanitize(raw) == raw[..8192] + [0xe2, 0x80, 0xa6]
  {
    StripKeepsVisible(raw, []);
    assert raw + [] == raw;
  }

  /** Text that is already visible and short enough is stored as it is. */
  lemma VisibleTextIsStored(raw: Bytes)
    requires AllVisible(raw) && |raw| <= 8192
    ensures Sanitize(raw) == raw
  {
    StripKeepsVisible(raw, []);
    assert raw + [] == raw;
  }
}
