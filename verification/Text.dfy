/** Byte-wise string order and separator splitting, as the Go runtime and SQLite's
    BINARY collation compare and cut strings. */
module Text {

  /** `a` sorts strictly before `b`. */
  predicate Less(a: string, b: string) {
    b != [] && (a == [] || a[0] < b[0] || (a[0] == b[0] && Less(a[1..], b[1..])))
  }

  predicate Distinct<T(==)>(xs: seq<T>) {
    forall i, j :: 0 <= i < j < |xs| ==> xs[i] != xs[j]
  }

  lemma {:induction false} LessIrreflexive(a: string)
    ensures !Less(a, a)
  {
    if a != [] {
      LessIrreflexive(a[1..]);
    }
  }

  lemma {:induction false} LessTransitive(a: string, b: string, c: string)
    requires Less(a, b) && Less(b, c)
    ensures Less(a, c)
  {
    if a != [] && a[0] == b[0] && b[0] == c[0] {
      LessTransitive(a[1..], b[1..], c[1..]);
    }
  }

  lemma {:induction false} LessTotal(a: string, b: string)
    ensures Less(a, b) || a == b || Less(b, a)
  {
    if a != [] && b != [] && a[0] == b[0] {
      LessTotal(a[1..], b[1..]);
      assert a == [a[0]] + a[1..] && b == [b[0]] + b[1..];
    }
  }

  lemma LessAsymmetric(a: string, b: string)
    requires Less(a, b)
    ensures !Less(b, a) && a != b
  {
    LessIrreflexive(a);
    if Less(b, a) {
      LessTransitive(a, b, a);
    }
  }

  /** Heads of equal width decide the order unless they are equal. */
  lemma {:induction false} LessConcat(a: string, b: string, p: string, q: string)
    requires |a| == |b|
    ensures Less(a + p, b + q) <==> Less(a, b) || (a == b && Less(p, q))
  {
    if a == [] {
      assert a + p == p && b + q == q;
    } else {
      assert (a + p)[1..] == a[1..] + p && (b + q)[1..] == b[1..] + q;
      LessConcat(a[1..], b[1..], p, q);
      assert a == [a[0]] + a[1..] && b == [b[0]] + b[1..];
      LessIrreflexive(a[1..]);
    }
  }

  /** The parts of `s` between separators; always at least one part. */
  function Split(s: string, sep: char): (parts: seq<string>)
    ensures |parts| >= 1
  {
    if s == [] then [[]]
    else
      var rest := Split(s[1..], sep);
      if s[0] == sep then [[]] + rest else [[s[0]] + rest[0]] + rest[1..]
  }

  function Join(parts: seq<string>, sep: char): string
    requires parts != []
  {
    if |parts| == 1 then parts[0] else parts[0] + [sep] + Join(parts[1..], sep)
  }

  lemma SplitStep(s: string, sep: char)
    requires s != []
    ensures var rest := Split(s[1..], sep);
            Split(s, sep) == if s[0] == sep then [[]] + rest else [[s[0]] + rest[0]] + rest[1..]
  {
  }

  lemma ConcatParts(first: string, p: seq<string>, q: seq<string>)
    requires p != []
    ensures [first] + (p + q) == ([first] + p) + q
    ensures (p + q)[0] == p[0] && [first] + (p + q)[1..] == ([first] + p[1..]) + q
  {
  }

  /** A separator cuts the parts before it from those after it. */
  lemma {:induction false} SplitAt(s: string, k: nat, sep: char)
    requires k < |s| && s[k] == sep
    ensures Split(s, sep) == Split(s[..k], sep) + Split(s[k + 1..], sep)
    decreases k
  {
    if k == 0 {
      assert Split(s[..0], sep) == [[]];
      hide Split;
      SplitStep(s, sep);
    } else {
      hide Split;
      var rest, front := s[1..], s[..k];
      SplitAt(rest, k - 1, sep);
      assert rest[..k - 1] == front[1..] && rest[k..] == s[k + 1..];
      SplitStep(s, sep);
      SplitStep(front, sep);
      var p, q := Split(front[1..], sep), Split(s[k + 1..], sep);
      ConcatParts(if s[0] == sep then [] else [s[0]] + p[0], p, q);
    }
  }

  lemma SplitAtSeparator(a: string, b: string, sep: char)
    ensures Split(a + [sep] + b, sep) == Split(a, sep) + Split(b, sep)
  {
    var whole := a + [sep] + b;
    assert whole[..|a|] == a && whole[|a| + 1..] == b;
    hide Split;
    SplitAt(whole, |a|, sep);
  }

  lemma {:induction false} SplitUnseparated(s: string, sep: char)
    requires sep !in s
    ensures Split(s, sep) == [s]
  {
    if s != [] {
      SplitUnseparated(s[1..], sep);
      assert s == [s[0]] + s[1..];
    }
  }

  /** Splitting undoes joining when no part holds the separator. */
  lemma {:induction false} SplitJoin(parts: seq<string>, sep: char)
    requires parts != [] && forall p | p in parts :: sep !in p
    ensures Split(Join(parts, sep), sep) == parts
  {
    SplitUnseparated(parts[0], sep);
    if |parts| == 1 {
      assert parts == [parts[0]];
    } else {
      SplitAtSeparator(parts[0], Join(parts[1..], sep), sep);
      SplitJoin(parts[1..], sep);
      assert parts == [parts[0]] + parts[1..];
    }
  }

  /** Case folding of ASCII letters, as SQLite's `lower` and NOCASE do it. */
  function LowerChar(c: char): char {
    if 'A' <= c <= 'Z' then c + ' ' else c
  }

  /** Equal, or the two cases of one ASCII letter. */
  predicate SameLetter(a: char, b: char) {
    || a == b
    || ('A' <= a <= 'Z' && b as int == a as int + 32)
    || ('A' <= b <= 'Z' && a as int == b as int + 32)
  }

  lemma LowerAgrees(a: char, b: char)
    ensures LowerChar(a) == LowerChar(b) <==> SameLetter(a, b)
  {
  }

  /** `part` occurs in `text` (`strings.Contains`, SQLite's `instr(text, part) > 0`). */
  predicate Contains(text: string, part: string) {
    part <= text || (text != [] && Contains(text[1..], part))
  }
}
