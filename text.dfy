/** The small string toolkit the application relies on, with Python's meaning:
    whitespace as `str.isspace` sees it, `str.strip()`, `sep.join(parts)`,
    `s.split(sep)` and `''.join(parts)`. */
module Text {

  /** Python's `str.isspace` for one character: the characters that
      `str.strip()` with no argument removes. These are the ASCII controls
      TAB to CR and FS to US, the space, NEL, NO-BREAK SPACE, OGHAM SPACE MARK,
      EN QUAD to HAIR SPACE, LINE and PARAGRAPH SEPARATOR, NARROW NO-BREAK
      SPACE, MEDIUM MATHEMATICAL SPACE and IDEOGRAPHIC SPACE. */
  predicate IsSpace(c: char) {
    ('\t' <= c <= '\r') || ('\U{1C}' <= c <= ' ') || c == '\U{85}' || c == '\U{A0}' || c == '\U{1680}'
    || ('\U{2000}' <= c <= '\U{200A}') || c == '\U{2028}' || c == '\U{2029}' || c == '\U{202F}'
    || c == '\U{205F}' || c == '\U{3000}'
  }

  predicate AllSpace(s: string) {
    forall k :: 0 <= k < |s| ==> IsSpace(s[k])
  }

  /** The non-whitespace characters of `s`, in order: what a reader of the
      text sees once line breaks and spacing are ignored. */
  function NonSpace(s: string): (r: string)
    ensures |r| <= |s|
  {
    if s == [] then []
    else if IsSpace(s[0]) then NonSpace(s[1..])
    else [s[0]] + NonSpace(s[1..])
  }

  /** A text shows nothing exactly when it is all whitespace. */
  lemma {:induction false} NonSpaceEmpty(s: string)
    ensures NonSpace(s) == [] <==> AllSpace(s)
  {
    if s != [] {
      NonSpaceEmpty(s[1..]);
      assert AllSpace(s) <==> IsSpace(s[0]) && AllSpace(s[1..]);
    }
  }

  lemma {:induction false} NonSpaceConcat(a: string, b: string)
    ensures NonSpace(a + b) == NonSpace(a) + NonSpace(b)
  {
    if a == [] {
      assert a + b == b;
    } else {
      assert (a + b)[0] == a[0];
      assert (a + b)[1..] == a[1..] + b;
      NonSpaceConcat(a[1..], b);
    }
  }

  /** How many whitespace characters `s` starts with. */
  function LeadingSpace(s: string): (n: nat)
    ensures n <= |s|
    ensures forall k :: 0 <= k < n ==> IsSpace(s[k])
    ensures n < |s| ==> !IsSpace(s[n])
  {
    if s != [] && IsSpace(s[0]) then 1 + LeadingSpace(s[1..]) else 0
  }

  /** How many whitespace characters `s` ends with. */
  function TrailingSpace(s: string): (n: nat)
    ensures n <= |s|
    ensures forall k :: |s| - n <= k < |s| ==> IsSpace(s[k])
    ensures n < |s| ==> !IsSpace(s[|s| - n - 1])
  {
    if s != [] && IsSpace(s[|s| - 1]) then 1 + TrailingSpace(s[..|s| - 1]) else 0
  }

  /** `r` is `s` with some whitespace cut from its start and its end, and
      nothing else changed. */
  ghost predicate Trimmed(s: string, r: string) {
    exists i, j :: 0 <= i <= j <= |s| && r == s[i..j] && AllSpace(s[..i]) && AllSpace(s[j..])
  }

  /** `str.strip()`: the text between the leading and the trailing
      whitespace. */
  function Strip(s: string): (r: string)
    ensures Trimmed(s, r)
    ensures r == [] || (!IsSpace(r[0]) && !IsSpace(r[|r| - 1]))
    ensures r == [] <==> AllSpace(s)
    ensures NonSpace(r) == NonSpace(s)
  {
    var i := LeadingSpace(s);
    var rest := s[i..];
    var j := i + (|rest| - TrailingSpace(rest));
    var front, r, back := s[..i], s[i..j], s[j..];
    assert r != [] ==> r[0] == s[i] && r[|r| - 1] == rest[j - i - 1];
    assert AllSpace(front);
    assert AllSpace(back) by {
      assert forall k :: 0 <= k < |back| ==> back[k] == rest[j - i + k];
    }
    Split3(s, i, j);
    Padded(front, r, back);
    StripEmpty(s, r);
    TrimmedAt(s, i, j);
    r
  }

  lemma Split3(s: string, i: nat, j: nat)
    requires i <= j <= |s|
    ensures s[..i] + (s[i..j] + s[j..]) == s
  {
    assert forall k | 0 <= k < |s| :: (s[..i] + (s[i..j] + s[j..]))[k] == s[k];
  }

  lemma TrimmedAt(s: string, i: nat, j: nat)
    requires i <= j <= |s| && AllSpace(s[..i]) && AllSpace(s[j..])
    ensures Trimmed(s, s[i..j])
  {
  }

  /** Whitespace around a text hides nothing of it. */
  lemma Padded(front: string, r: string, back: string)
    requires AllSpace(front) && AllSpace(back)
    ensures NonSpace(front + (r + back)) == NonSpace(r)
  {
    NonSpaceConcat(front, r + back);
    NonSpaceConcat(r, back);
    NonSpaceEmpty(front);
    NonSpaceEmpty(back);
    Unit(NonSpace(r));
    Unit(NonSpace(r + back));
  }

  lemma StripEmpty(s: string, r: string)
    requires NonSpace(r) == NonSpace(s)
    requires r == [] || !IsSpace(r[0])
    ensures r == [] <==> AllSpace(s)
  {
    NonSpaceEmpty(s);
    NonSpaceEmpty(r);
  }

  /** `''.join(parts)`: empty exactly when every part is. */
  function Flatten(parts: seq<string>): (r: string)
    ensures r == [] <==> forall k :: 0 <= k < |parts| ==> parts[k] == []
  {
    if parts == [] then [] else parts[0] + Flatten(parts[1..])
  }

  lemma TakeDrop(s: string, n: nat)
    requires n <= |s|
    ensures s[..n] + s[n..] == s
  {
    assert forall i | 0 <= i < |s| :: (s[..n] + s[n..])[i] == s[i];
  }

  lemma Unit(s: string)
    ensures [] + s == s && s + [] == s
  {
    assert forall i | 0 <= i < |s| :: ([] + s)[i] == s[i] && (s + [])[i] == s[i];
  }

  lemma Assoc(a: string, b: string, c: string)
    ensures (a + b) + c == a + (b + c)
  {
  }

  lemma Regroup(a: string, x: string, y: string, r: string)
    ensures (a + x) + (y + r) == a + ((x + y) + r)
  {
  }

  lemma {:induction false} FlattenSnoc(parts: seq<string>, p: string)
    ensures Flatten(parts + [p]) == Flatten(parts) + p
  {
    if parts == [] {
      assert parts + [p] == [p];
    } else {
      assert (parts + [p])[1..] == parts[1..] + [p];
      FlattenSnoc(parts[1..], p);
    }
  }

  /** `sep.join(parts)`. */
  function Join(parts: seq<string>, sep: string): string {
    if |parts| == 0 then []
    else if |parts| == 1 then parts[0]
    else parts[0] + sep + Join(parts[1..], sep)
  }

  /** `s.split(sep)` for a one-character separator. Splitting and joining
      again gives back `s`. */
  function SplitOn(s: string, sep: char): (r: seq<string>)
    ensures |r| >= 1
    ensures forall k :: 0 <= k < |r| ==> sep !in r[k]
    ensures Join(r, [sep]) == s
  {
    if s == [] then [[]]
    else
      var rest := SplitOn(s[1..], sep);
      if s[0] == sep then
        assert ([[]] + rest)[1..] == rest;
        [[]] + rest
      else
        assert ([[s[0]] + rest[0]] + rest[1..])[1..] == rest[1..];
        assert |rest| > 1 ==> Join(rest, [sep]) == rest[0] + [sep] + Join(rest[1..], [sep]);
        [[s[0]] + rest[0]] + rest[1..]
  }

  /** Text without a separator in front of `b` only lengthens the first
      field of `b`. */
  lemma {:induction false} SplitPrepend(a: string, b: string, sep: char)
    requires sep !in a
    ensures SplitOn(a + b, sep) == [a + SplitOn(b, sep)[0]] + SplitOn(b, sep)[1..]
  {
    if a != [] {
      assert (a + b)[0] == a[0];
      assert (a + b)[1..] == a[1..] + b;
      SplitPrepend(a[1..], b, sep);
      assert [a[0]] + (a[1..] + SplitOn(b, sep)[0]) == a + SplitOn(b, sep)[0];
    } else {
      assert a + b == b;
      assert a + SplitOn(b, sep)[0] == SplitOn(b, sep)[0];
      assert [a + SplitOn(b, sep)[0]] + SplitOn(b, sep)[1..] == SplitOn(b, sep);
    }
  }

  /** Joining fields that do not contain the separator and splitting again
      gives back the fields. */
  lemma {:induction false} SplitJoin(parts: seq<string>, sep: char)
    requires |parts| >= 1
    requires forall k :: 0 <= k < |parts| ==> sep !in parts[k]
    ensures SplitOn(Join(parts, [sep]), sep) == parts
  {
    if |parts| == 1 {
      SplitPrepend(parts[0], [], sep);
      assert parts[0] + [] == parts[0];
    } else {
      var tail := Join(parts[1..], [sep]);
      SplitJoin(parts[1..], sep);
      SplitAfterSep(tail, sep);
      SplitPrepend(parts[0], [sep] + tail, sep);
      Assoc(parts[0], [sep], tail);
      assert parts[0] + [] == parts[0];
      assert [parts[0]] + parts[1..] == parts;
    }
  }

  /** A separator in front starts a new, empty, first field. */
  lemma SplitAfterSep(tail: string, sep: char)
    ensures SplitOn([sep] + tail, sep)[0] == []
    ensures SplitOn([sep] + tail, sep)[1..] == SplitOn(tail, sep)
  {
    assert ([sep] + tail)[1..] == tail;
  }

  /** Joining with a whitespace separator hides nothing and adds nothing
      visible. */
  lemma {:induction false} NonSpaceJoin(parts: seq<string>, sep: string)
    requires AllSpace(sep)
    ensures NonSpace(Join(parts, sep)) == NonSpace(Flatten(parts))
  {
    if |parts| == 1 {
      assert Flatten(parts) == parts[0] + Flatten([]);
      assert parts[0] + [] == parts[0];
    } else if |parts| > 1 {
      NonSpaceJoin(parts[1..], sep);
      NonSpaceConcat(parts[0] + sep, Join(parts[1..], sep));
      NonSpaceConcat(parts[0], sep);
      NonSpaceConcat(parts[0], Flatten(parts[1..]));
      NonSpaceEmpty(sep);
    }
  }

  /** Number of occurrences of `c` in `s`. */
  function Count(s: string, c: char): (n: nat)
    ensures n <= |s|
    ensures n == 0 <==> c !in s
  {
    if s == [] then 0 else (if s[0] == c then 1 else 0) + Count(s[1..], c)
  }

  lemma {:induction false} CountConcat(a: string, b: string, c: char)
    ensures Count(a + b, c) == Count(a, c) + Count(b, c)
  {
    if a == [] {
      assert a + b == b;
    } else {
      assert (a + b)[0] == a[0];
      assert (a + b)[1..] == a[1..] + b;
      CountConcat(a[1..], b, c);
    }
  }
}
