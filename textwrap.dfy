/** Python's `textwrap.fill(text, width)` with its default options, as used by
    `generate_script`: whitespace is turned into spaces, the text is cut into
    runs of spaces and runs of other characters ("chunks"), the chunks are
    laid out greedily on lines of at most `width` characters, a chunk longer
    than a whole line is cut to fill the current line, whitespace at the edges
    of the lines is dropped, and the lines are joined with "\n". */
module TextWrap {
  import opened Text

  /** The whitespace `textwrap` turns into spaces before splitting (its
      `_whitespace` set, ASCII only). */
  predicate IsWrapSpace(c: char): (r: bool)
    ensures r ==> IsSpace(c)
  {
    ('\t' <= c <= '\r') || c == ' '
  }

  /** `TextWrapper._munge_whitespace`: every wrap-space becomes ' '. */
  function Munge(s: string): (r: string)
    ensures |r| == |s|
    ensures forall i :: 0 <= i < |s| ==> r[i] == (if IsWrapSpace(s[i]) then ' ' else s[i])
  {
    if s == [] then [] else [if IsWrapSpace(s[0]) then ' ' else s[0]] + Munge(s[1..])
  }

  lemma {:induction false} MungeKeepsText(s: string)
    ensures NonSpace(Munge(s)) == NonSpace(s)
    ensures '\n' !in Munge(s)
  {
    if s != [] {
      MungeKeepsText(s[1..]);
      assert Munge(s) == [Munge(s)[0]] + Munge(s[1..]);
      NonSpaceConcat([Munge(s)[0]], Munge(s[1..]));
    }
  }

  /** No tab, line break, vertical tab, form feed or carriage return: the
      only wrap-space in `s`, if any, is ' '. */
  predicate Plain(s: string) {
    forall c | c in s :: !('\t' <= c <= '\r')
  }

  /** Plain text comes through munging unchanged. */
  lemma MungeIdentity(s: string)
    requires Plain(s)
    ensures Munge(s) == s
  {
    forall i | 0 <= i < |s|
      ensures Munge(s)[i] == s[i]
    {
      assert s[i] in s;
      assert !('\t' <= s[i] <= '\r');
      assert IsWrapSpace(s[i]) ==> s[i] == ' ';
    }
  }

  /** Length of the run of spaces, or of non-spaces, that `s` starts with. */
  function RunLength(s: string): (n: nat)
    requires s != []
    ensures 1 <= n <= |s|
    ensures forall k :: 0 <= k < n ==> (s[k] == ' ') == (s[0] == ' ')
    ensures n < |s| ==> (s[n] == ' ') != (s[0] == ' ')
  {
    if |s| == 1 || (s[1] == ' ') != (s[0] == ' ') then 1 else 1 + RunLength(s[1..])
  }

  /** A chunk: a non-empty run of spaces, or of characters other than space. */
  predicate Uniform(c: string) {
    c != [] && forall i :: 0 <= i < |c| ==> (c[i] == ' ') == (c[0] == ' ')
  }

  /** Neighbouring chunks are of different kinds, so every run is whole.
      Both indices are bound, with `k == j + 1`, so that the quantifier has
      `chunks[j]` and `chunks[k]` to trigger on. */
  ghost predicate Alternating(chunks: seq<string>) {
    forall j, k :: 0 <= j < k < |chunks| && k == j + 1 ==>
      chunks[j] != [] && chunks[k] != [] && (chunks[j][0] == ' ') != (chunks[k][0] == ' ')
  }

  /** `TextWrapper._split_chunks` on munged text: maximal runs of spaces and
      maximal runs of other characters, in order. */
  function SplitChunks(s: string): (chunks: seq<string>)
    ensures Flatten(chunks) == s
    ensures forall k :: 0 <= k < |chunks| ==> Uniform(chunks[k])
  {
    if s == [] then []
    else
      var n := RunLength(s);
      var rest := SplitChunks(s[n..]);
      assert ([s[..n]] + rest)[1..] == rest;
      TakeDrop(s, n);
      [s[..n]] + rest
  }

  /** Neighbouring chunks are of different kinds: each run is maximal. */
  lemma {:induction false} ChunksAlternate(s: string)
    ensures Alternating(SplitChunks(s))
  {
    if s != [] {
      var n := RunLength(s);
      var rest := SplitChunks(s[n..]);
      ChunksAlternate(s[n..]);
      var chunks := SplitChunks(s);
      assert chunks == [s[..n]] + rest;
      assert rest != [] ==> rest[0][0] == s[n];
      assert forall k :: 1 <= k < |chunks| ==> chunks[k] == rest[k - 1];
      assert |chunks| > 1 ==> chunks[0] == s[..n] && chunks[1] == rest[0];
    }
  }

  /** Total size of the pending chunks: the measure that the layout loop
      decreases. */
  ghost function Weight(chunks: seq<string>): nat {
    |Flatten(chunks)| + |chunks|
  }

  /** A text that `fill` leaves as it is: one line's worth, no tab or line
      break to turn into a space, and no whitespace at its end to drop. */
  ghost predicate FitsOneLine(text: string, width: nat) {
    0 < |text| <= width && Plain(text) && !IsSpace(text[|text| - 1])
  }

  /** Chunks that lay out as one line with nothing dropped. */
  ghost predicate FitsAsIs(chunks: seq<string>, width: nat) {
    var all := Flatten(chunks);
    0 < |all| <= width && !IsSpace(all[|all| - 1])
  }

  lemma FlattenBack(cur: seq<string>, c: string)
    ensures Flatten(cur + [c]) == Flatten(cur) + c
    ensures NonSpace(Flatten(cur + [c])) == NonSpace(Flatten(cur)) + NonSpace(c)
    ensures '\n' !in Flatten(cur + [c]) <==> '\n' !in Flatten(cur) && '\n' !in c
    ensures |Flatten(cur + [c])| == |Flatten(cur)| + |c|
  {
    FlattenSnoc(cur, c);
    NonSpaceConcat(Flatten(cur), c);
  }

  lemma {:induction false} FlattenLast(parts: seq<string>)
    requires parts != []
    ensures Flatten(parts) == Flatten(parts[..|parts| - 1]) + parts[|parts| - 1]
  {
    if |parts| == 1 {
      assert parts[..0] == [] && parts[1..] == [];
    } else {
      FlattenLast(parts[1..]);
      assert parts[..|parts| - 1][1..] == parts[1..][..|parts| - 2];
      Assoc(parts[0], Flatten(parts[1..][..|parts| - 2]), parts[|parts| - 1]);
    }
  }

  /** `TextWrapper._handle_long_word`: the next chunk is longer than a whole
      line, so as much of it as the current line has room for goes on this
      line and the rest stays pending. */
  method HandleLongWord(chunks: seq<string>, cur: seq<string>, curLen: nat, width: nat)
    returns (cur': seq<string>, chunks': seq<string>)
    requires chunks != [] && curLen == |Flatten(cur)| <= width < |chunks[0]|
    ensures cur' == cur + [chunks[0][..width - curLen]]
    ensures chunks' == [chunks[0][width - curLen..]] + chunks[1..]
    ensures |Flatten(cur')| == width
    ensures Flatten(cur') + Flatten(chunks') == Flatten(cur) + Flatten(chunks)
    ensures Weight(chunks') + (width - curLen) == Weight(chunks)
  {
    var spaceLeft := width - curLen;
    var c := chunks[0];
    cur' := cur + [c[..spaceLeft]];
    chunks' := [c[spaceLeft..]] + chunks[1..];
    assert chunks'[0] == c[spaceLeft..] && chunks'[1..] == chunks[1..];
    CutFirst(chunks, cur, cur', chunks', spaceLeft);
  }

  lemma CutFirst(chunks: seq<string>, cur: seq<string>, cur': seq<string>, chunks': seq<string>, n: nat)
    requires chunks != [] && n <= |chunks[0]|
    requires cur' == cur + [chunks[0][..n]]
    requires chunks' != [] && chunks'[0] == chunks[0][n..] && chunks'[1..] == chunks[1..]
    ensures |Flatten(cur')| == |Flatten(cur)| + n
    ensures Flatten(cur') + Flatten(chunks') == Flatten(cur) + Flatten(chunks)
    ensures Weight(chunks') + n == Weight(chunks)
  {
    var c := chunks[0];
    FlattenSnoc(cur, c[..n]);
    TakeDrop(c, n);
    Regroup(Flatten(cur), c[..n], c[n..], Flatten(chunks[1..]));
  }

  /** The inner loop of `TextWrapper._wrap_chunks`: chunks go onto the line
      while they fit. The line takes the longest run of leading chunks whose
      total width is at most `width`. */
  method TakeFitting(chunks: seq<string>, width: nat) returns (cur: seq<string>, curLen: nat, rest: seq<string>)
    ensures |cur| <= |chunks| && cur == chunks[..|cur|] && rest == chunks[|cur|..]
    ensures curLen == |Flatten(cur)| <= width
    ensures rest == [] || curLen + |rest[0]| > width
    ensures Flatten(cur) + Flatten(rest) == Flatten(chunks)
    ensures Weight(rest) + curLen + |cur| == Weight(chunks)
  {
    var i := 0;
    curLen := 0;
    assert chunks[..0] == [] && chunks[0..] == chunks;
    while i < |chunks| && curLen + |chunks[i]| <= width
      invariant i <= |chunks|
      invariant curLen == |Flatten(chunks[..i])| <= width
      invariant Flatten(chunks[..i]) + Flatten(chunks[i..]) == Flatten(chunks)
      invariant Weight(chunks[i..]) + curLen + i == Weight(chunks)
    {
      MoveChunk(chunks, i);
      curLen := curLen + |chunks[i]|;
      i := i + 1;
    }
    cur, rest := chunks[..i], chunks[i..];
  }

  /** Moving the next pending chunk onto the line keeps the line and the
      pending chunks together as they were. */
  lemma MoveChunk(chunks: seq<string>, i: nat)
    requires i < |chunks|
    ensures Flatten(chunks[..i + 1]) == Flatten(chunks[..i]) + chunks[i]
    ensures Flatten(chunks[i..]) == chunks[i] + Flatten(chunks[i + 1..])
    ensures Flatten(chunks[..i + 1]) + Flatten(chunks[i + 1..]) == Flatten(chunks[..i]) + Flatten(chunks[i..])
  {
    FlattenLast(chunks[..i + 1]);
    assert chunks[..i + 1][..i] == chunks[..i];
    assert chunks[i..][1..] == chunks[i + 1..];
    Assoc(Flatten(chunks[..i]), chunks[i], Flatten(chunks[i + 1..]));
  }

  /** The chunks as `_split_chunks` leaves them: non-empty runs, each
      neighbour of the other kind. */
  ghost predicate Chunked(chunks: seq<string>) {
    (forall k :: 0 <= k < |chunks| ==> Uniform(chunks[k])) && Alternating(chunks)
  }

  lemma ChunkedSuffix(chunks: seq<string>, i: nat)
    requires Chunked(chunks) && i <= |chunks|
    ensures Chunked(chunks[i..])
  {
    assert forall k :: 0 <= k < |chunks| - i ==> chunks[i..][k] == chunks[i + k];
  }

  /** Cutting the front off the first chunk leaves the chunks whole. */
  lemma ChunkedCut(chunks: seq<string>, n: nat)
    requires Chunked(chunks) && chunks != [] && n < |chunks[0]|
    ensures Chunked([chunks[0][n..]] + chunks[1..])
  {
    var r := [chunks[0][n..]] + chunks[1..];
    assert r[0][0] == chunks[0][n];
    assert forall k :: 1 <= k < |r| ==> r[k] == chunks[k];
  }

  /** A run of spaces is whitespace. */
  lemma SpaceRun(c: string)
    ensures Uniform(c) && c[0] == ' ' ==> AllSpace(c)
  {
  }

  function Min(a: nat, b: nat): nat {
    if a < b then a else b
  }

  /** The length of the word, the run of characters other than ' ', that `s`
      ends with. */
  function WordEnd(s: string): (n: nat)
    ensures n <= |s|
    ensures forall i :: |s| - n <= i < |s| ==> s[i] != ' '
    ensures n < |s| ==> s[|s| - 1 - n] == ' '
  {
    if s == [] || s[|s| - 1] == ' ' then 0 else WordEnd(s[..|s| - 1]) + 1
  }

  /** The length of the word that `s` starts with. */
  function WordStart(s: string): (n: nat)
    ensures n <= |s|
    ensures forall i :: 0 <= i < n ==> s[i] != ' '
    ensures n < |s| ==> s[n] == ' '
  {
    if s == [] || s[0] == ' ' then 0 else 1 + WordStart(s[1..])
  }

  lemma {:induction false} WordEndAtLeast(a: string, w: string)
    requires forall i :: 0 <= i < |w| ==> w[i] != ' '
    ensures WordEnd(a + w) >= |w|
  {
    if w != [] {
      var s := a + w;
      assert s[|s| - 1] == w[|w| - 1];
      assert s[..|s| - 1] == a + w[..|w| - 1];
      WordEndAtLeast(a, w[..|w| - 1]);
    }
  }

  lemma {:induction false} WordStartAtLeast(w: string, s: string)
    requires w <= s
    requires forall i :: 0 <= i < |w| ==> w[i] != ' '
    ensures WordStart(s) >= |w|
  {
    if w != [] {
      assert s[0] == w[0];
      WordStartAtLeast(w[1..], s[1..]);
    }
  }

  predicate EndsInSpace(s: string) {
    s != [] && s[|s| - 1] == ' '
  }

  /** Where a line `prev` may end and the next line `next` begin, with the
      whitespace `gap` dropped between them: at whitespace, or inside a word
      only when that word is longer than a whole line. */
  ghost predicate BreakOk(prev: string, gap: string, next: string, width: nat) {
    gap != [] || EndsInSpace(prev) || WordEnd(prev) + WordStart(next) > width
  }

  /** The line `prev`, followed by the dropped whitespace `gap` and by the
      pending chunks, ends at a break that `BreakOk` admits, whatever line
      the pending chunks start. */
  ghost predicate PendingOk(prev: string, gap: string, chunks: seq<string>, width: nat) {
    || chunks == [] || gap != [] || EndsInSpace(prev) || AllSpace(chunks[0])
    || (chunks[0] != [] && chunks[0][0] != ' ' && 0 < WordEnd(prev) && WordEnd(prev) + |chunks[0]| > width)
  }

  /** How the chunks of a line meet the chunks still pending: between two
      chunks of different kinds; inside a chunk longer than a line; or, when
      the piece cut off is empty, between the chunk before it and the next. */
  ghost predicate Seam(cur: seq<string>, rest: seq<string>, width: nat)
    requires cur != [] && rest != []
  {
    var last := cur[|cur| - 1];
    || (Uniform(last) && Uniform(rest[0]) && (last[0] == ' ') != (rest[0][0] == ' '))
    || (last != [] && Uniform(last + rest[0]) && |last| + |rest[0]| > width)
    || (last == [] && |cur| >= 2 && Uniform(cur[|cur| - 2]) && Uniform(rest[0])
        && (cur[|cur| - 2][0] == ' ') != (rest[0][0] == ' '))
  }

  /** The inner loop of `_wrap_chunks` followed, when the next chunk is longer
      than a whole line, by `_handle_long_word`. The line starts with the
      first chunk, or with as much of it as fits. */
  method FillLine(pending: seq<string>, width: nat) returns (cur: seq<string>, rest: seq<string>)
    requires width > 0 && Chunked(pending)
    ensures |Flatten(cur)| <= width
    ensures Flatten(cur) + Flatten(rest) == Flatten(pending)
    ensures pending == [] ==> cur == [] && rest == []
    ensures pending != [] ==> Weight(rest) < Weight(pending)
    ensures pending != [] ==> cur != [] && cur[0] == pending[0][..Min(|pending[0]|, width)]
    ensures |Flatten(pending)| <= width ==> rest == []
    ensures forall k :: 0 <= k < |cur| - 1 ==> Uniform(cur[k])
    ensures Chunked(rest)
    ensures cur != [] && rest != [] ==> Seam(cur, rest, width)
  {
    var curLen;
    cur, curLen, rest := TakeFitting(pending, width);
    FirstWithin(rest);
    FirstWithin(cur);
    ghost var taken := |cur|;
    ChunkedSuffix(pending, taken);
    assert forall k :: 0 <= k < taken ==> cur[k] == pending[k];
    assert cur != [] ==> |pending[0]| <= width && pending[0][..|pending[0]|] == pending[0];
    if rest != [] && |rest[0]| > width {
      ghost var cur0, rest0, n := cur, rest, width - curLen;
      cur, rest := HandleLongWord(rest, cur, curLen, width);
      ChunkedCut(rest0, n);
      LongWordSeam(pending, cur0, rest0, cur, rest, n, width);
    } else if cur != [] && rest != [] {
      assert cur[taken - 1] == pending[taken - 1] && rest[0] == pending[taken];
    }
  }

  lemma LongWordSeam(pending: seq<string>, cur0: seq<string>, rest0: seq<string>,
                     cur: seq<string>, rest: seq<string>, n: nat, width: nat)
    requires Chunked(pending) && |cur0| <= |pending| && cur0 == pending[..|cur0|] && rest0 == pending[|cur0|..] && rest0 != []
    requires 0 < width && n <= width < |rest0[0]| && |Flatten(cur0)| + n == width
    requires cur == cur0 + [rest0[0][..n]] && rest == [rest0[0][n..]] + rest0[1..]
    ensures Seam(cur, rest, width)
  {
    var c := rest0[0];
    assert c == pending[|cur0|] && Uniform(c);
    assert cur[|cur| - 1] == c[..n] && rest[0] == c[n..];
    if n > 0 {
      TakeDrop(c, n);
    } else {
      assert cur0 != [];
      assert cur[|cur| - 2] == pending[|cur0| - 1];
      assert c[0..] == c;
    }
  }

  /** `_wrap_chunks` drops the chunk at the start of every line but the
      first when it is whitespace: exactly when `dropLeading` holds and the
      first chunk strips to nothing. */
  method SkipLeading(chunks: seq<string>, dropLeading: bool) returns (pending: seq<string>, ghost lead: string)
    requires chunks != []
    ensures pending == (if dropLeading && AllSpace(chunks[0]) then chunks[1..] else chunks)
    ensures lead == (if dropLeading && AllSpace(chunks[0]) then chunks[0] else [])
    ensures Flatten(chunks) == lead + Flatten(pending)
  {
    pending, lead := chunks, [];
    if dropLeading && Strip(chunks[0]) == [] {
      pending, lead := chunks[1..], chunks[0];
    }
  }

  /** `_wrap_chunks` drops the last chunk of a line exactly when it strips
      to nothing. */
  method DropTrailing(cur: seq<string>) returns (cur': seq<string>, ghost tail: string)
    ensures cur' == (if cur != [] && AllSpace(cur[|cur| - 1]) then cur[..|cur| - 1] else cur)
    ensures tail == (if cur != [] && AllSpace(cur[|cur| - 1]) then cur[|cur| - 1] else [])
    ensures Flatten(cur) == Flatten(cur') + tail
  {
    cur', tail := cur, [];
    if cur != [] && Strip(cur[|cur| - 1]) == [] {
      FlattenLast(cur);
      cur', tail := cur[..|cur| - 1], cur[|cur| - 1];
    }
  }

  /** One pass of the layout loop of `TextWrapper._wrap_chunks`: the chunks of
      the next line, and the chunks still pending, with the whitespace `lead`
      dropped before the line and `tail` after it. The line is at most
      `width` wide; it starts with the first chunk, or as much of it as fits,
      unless that chunk is dropped; the pending chunks shrink and stay whole;
      the line ends at a break `PendingOk` admits. When nothing is dropped at
      the start and every chunk fits, the line is all of them. */
  method LayOutLine(chunks: seq<string>, width: nat, dropLeading: bool)
    returns (cur: seq<string>, rest: seq<string>, ghost lead: string, ghost tail: string)
    requires width > 0 && chunks != [] && Chunked(chunks)
    ensures |Flatten(cur)| <= width
    ensures '\n' !in Flatten(chunks) ==> '\n' !in Flatten(cur) && '\n' !in Flatten(rest)
    ensures NonSpace(Flatten(cur)) + NonSpace(Flatten(rest)) == NonSpace(Flatten(chunks))
    ensures Flatten(chunks) == lead + ((Flatten(cur) + tail) + Flatten(rest))
    ensures lead == (if dropLeading && AllSpace(chunks[0]) then chunks[0] else [])
    ensures AllSpace(lead) && AllSpace(tail)
    ensures cur == [] <==> Flatten(cur) == []
    ensures cur == [] ==> lead != [] || tail != []
    ensures lead == [] && cur != [] ==> chunks[0][..Min(|chunks[0]|, width)] <= Flatten(cur)
    ensures Weight(rest) < Weight(chunks)
    ensures Chunked(rest)
    ensures cur != [] ==> PendingOk(Flatten(cur), tail, rest, width)
    ensures !dropLeading && FitsAsIs(chunks, width) ==> rest == [] && Flatten(cur) == Flatten(chunks)
  {
    // whitespace at the start of a line is dropped, except on the first line
    var pending;
    pending, lead := SkipLeading(chunks, dropLeading);
    if pending != chunks {
      ChunkedSuffix(chunks, 1);
    }
    var line;
    line, rest := FillLine(pending, width);
    // whitespace at the end of a line is dropped
    cur, tail := DropTrailing(line);
    Composed(Flatten(chunks), lead, Flatten(cur), tail, Flatten(rest));
    LineEdges(chunks, width, lead, pending, line, rest, cur, tail);
    if !dropLeading && FitsAsIs(chunks, width) {
      LastOfTail(Flatten(cur), tail);
    }
  }

  /** What dropping whitespace at the two ends leaves of the line. */
  lemma LineEdges(chunks: seq<string>, width: nat, lead: string, pending: seq<string>, line: seq<string>,
                  rest: seq<string>, cur: seq<string>, tail: string)
    requires width > 0 && chunks != [] && Uniform(chunks[0])
    requires lead == [] ==> pending == chunks
    requires line == [] ==> pending == []
    requires pending != [] ==> line != [] && line[0] == pending[0][..Min(|pending[0]|, width)]
    requires forall k :: 0 <= k < |line| - 1 ==> Uniform(line[k])
    requires Chunked(rest)
    requires line != [] && rest != [] ==> Seam(line, rest, width)
    requires cur == (if line != [] && AllSpace(line[|line| - 1]) then line[..|line| - 1] else line)
    requires tail == (if line != [] && AllSpace(line[|line| - 1]) then line[|line| - 1] else [])
    ensures cur == [] <==> Flatten(cur) == []
    ensures cur == [] ==> lead != [] || tail != []
    ensures lead == [] && cur != [] ==> chunks[0][..Min(|chunks[0]|, width)] <= Flatten(cur)
    ensures cur != [] ==> PendingOk(Flatten(cur), tail, rest, width)
  {
    if cur != [] {
      assert cur[0] == line[0];
      FirstPrefix(cur);
      FlattenLast(cur);
      assert cur[|cur| - 1] != [];
      if rest != [] {
        SeamAfterDrop(line, rest, width, cur, tail);
      }
    } else if lead == [] {
      assert line[0] != [];
    }
  }

  /** The first part is a prefix of the whole. */
  lemma FirstPrefix(parts: seq<string>)
    requires parts != []
    ensures parts[0] <= Flatten(parts)
  {
    assert (parts[0] + Flatten(parts[1..]))[..|parts[0]|] == parts[0];
  }

  /** After the whitespace at its end is dropped, the line meets the pending
      chunks at a break `PendingOk` admits. */
  lemma SeamAfterDrop(line: seq<string>, rest: seq<string>, width: nat, cur: seq<string>, tail: string)
    requires line != [] && rest != [] && Seam(line, rest, width) && Chunked(rest)
    requires forall k :: 0 <= k < |line| - 1 ==> Uniform(line[k])
    requires cur == (if AllSpace(line[|line| - 1]) then line[..|line| - 1] else line)
    requires tail == (if AllSpace(line[|line| - 1]) then line[|line| - 1] else [])
    requires cur != []
    ensures PendingOk(Flatten(cur), tail, rest, width)
  {
    var last := line[|line| - 1];
    FlattenLast(cur);
    var init := Flatten(cur[..|cur| - 1]);
    if tail == [] {
      if AllSpace(last) {
        // the piece cut off was empty: the line ends with the chunk before it
        var d := line[|line| - 2];
        assert cur[|cur| - 1] == d;
        assert Flatten(cur)[|Flatten(cur)| - 1] == d[|d| - 1];
        SpaceRun(d);
        SpaceRun(rest[0]);
      } else {
        assert cur == line && last != [];
        SpaceRun(last);
        SpaceRun(rest[0]);
        if !(Uniform(last) && Uniform(rest[0]) && (last[0] == ' ') != (rest[0][0] == ' ')) {
          var c := last + rest[0];
          assert c[0] == last[0];
          assert forall i :: 0 <= i < |last| ==> last[i] == c[i];
          assert rest[0][0] == c[|last|];
          WordEndAtLeast(init, last);
        }
      }
    }
  }

  /** The line and the pending chunks, put back together with the whitespace
      dropped before and after the line, are the chunks laid out. */
  lemma Composed(all: string, lead: string, line: string, tail: string, rest: string)
    requires all == lead + ((line + tail) + rest)
    requires AllSpace(lead) && AllSpace(tail)
    ensures NonSpace(line) + NonSpace(rest) == NonSpace(all)
    ensures '\n' !in all ==> '\n' !in line && '\n' !in rest
  {
    ComposedText(all, lead, line, tail, rest);
  }

  lemma ComposedText(all: string, lead: string, line: string, tail: string, rest: string)
    requires all == lead + ((line + tail) + rest)
    requires AllSpace(lead) && AllSpace(tail)
    ensures NonSpace(line) + NonSpace(rest) == NonSpace(all)
  {
    NonSpaceConcat(lead, (line + tail) + rest);
    NonSpaceConcat(line + tail, rest);
    NonSpaceConcat(line, tail);
    NonSpaceEmpty(lead);
    NonSpaceEmpty(tail);
    Unit(NonSpace(line));
    Unit(NonSpace((line + tail) + rest));
  }

  /** The first pending chunk is part of what is pending. */
  lemma FirstWithin(rest: seq<string>)
    ensures rest == [] || |rest[0]| <= |Flatten(rest)|
  {
  }

  /** Whitespace dropped from the end of a line ends the line, if there was
      any. */
  lemma LastOfTail(line: string, tail: string)
    ensures tail == [] || (line + tail)[|line + tail| - 1] == tail[|tail| - 1]
    ensures tail == [] ==> line + tail == line
  {
  }

  /** The lines with the whitespace gaps around them: the first gap, the
      first line, the second gap, and so on, ending with the last gap. */
  ghost function Interleave(gaps: seq<string>, lines: seq<string>): string
    requires |gaps| == |lines| + 1
    decreases |lines|
  {
    if lines == [] then gaps[0]
    else Interleave(gaps[..|lines|], lines[..|lines| - 1]) + lines[|lines| - 1] + gaps[|lines|]
  }

  ghost predicate Gaps(gaps: seq<string>, lines: seq<string>) {
    |gaps| == |lines| + 1 && forall k :: 0 <= k < |gaps| ==> AllSpace(gaps[k])
  }

  /** Each break between two lines, with the gap of whitespace dropped at it,
      is one `BreakOk` admits. */
  ghost predicate Breaks(gaps: seq<string>, lines: seq<string>, width: nat) {
    |gaps| == |lines| + 1
    && forall k :: 0 < k < |lines| ==> BreakOk(lines[k - 1], gaps[k], lines[k], width)
  }

  /** `lines` are consecutive pieces of `s`, in order, with nothing but
      whitespace before, between and after them, so no character inside a
      line is dropped; and each break between two lines falls where
      whitespace was dropped, right after a space the line ends with, or
      inside a word whose pieces on the two lines make more than `width`
      characters. */
  ghost predicate Separated(s: string, lines: seq<string>, width: nat) {
    exists gaps :: Gaps(gaps, lines) && s == Interleave(gaps, lines) && Breaks(gaps, lines, width)
  }

  /** The gaps with more whitespace added to the last one. */
  ghost function Widen(gaps: seq<string>, x: string): seq<string>
    requires gaps != []
  {
    gaps[..|gaps| - 1] + [gaps[|gaps| - 1] + x]
  }

  lemma AllSpaceConcat(a: string, b: string)
    requires AllSpace(a) && AllSpace(b)
    ensures AllSpace(a + b)
  {
    assert forall k :: 0 <= k < |a + b| ==> (a + b)[k] == if k < |a| then a[k] else b[k - |a|];
  }

  lemma WidenLast(gaps: seq<string>, lines: seq<string>, x: string)
    requires Gaps(gaps, lines) && AllSpace(x)
    ensures Gaps(Widen(gaps, x), lines)
    ensures Interleave(Widen(gaps, x), lines) == Interleave(gaps, lines) + x
  {
    var g := Widen(gaps, x);
    var n := |lines|;
    AllSpaceConcat(gaps[n], x);
    assert forall k :: 0 <= k < n ==> g[k] == gaps[k];
    if lines != [] {
      assert g[..n] == gaps[..n];
      Assoc(Interleave(gaps[..n], lines[..n - 1]) + lines[n - 1], gaps[n], x);
    }
  }

  lemma AddLine(gaps: seq<string>, lines: seq<string>, line: string, t: string)
    requires Gaps(gaps, lines) && AllSpace(t)
    ensures Gaps(gaps + [t], lines + [line])
    ensures Interleave(gaps + [t], lines + [line]) == Interleave(gaps, lines) + line + t
  {
    assert (gaps + [t])[..|lines| + 1] == gaps;
    assert (lines + [line])[..|lines|] == lines;
  }

  /** Regrouping the text around one laid-out line. */
  lemma Regroup5(w: string, lead: string, line: string, tail: string, r: string)
    ensures w + (lead + ((line + tail) + r)) == (((w + lead) + line) + tail) + r
    ensures line == [] ==> w + (lead + ((line + tail) + r)) == (w + (lead + tail)) + r
  {
    if line == [] {
      Unit(tail);
    }
  }

  /** The gaps hide nothing: the woven text shows what the lines show. */
  lemma {:induction false} InterleaveText(gaps: seq<string>, lines: seq<string>)
    requires Gaps(gaps, lines)
    ensures NonSpace(Interleave(gaps, lines)) == NonSpace(Flatten(lines))
  {
    var n := |lines|;
    if n == 0 {
      NonSpaceEmpty(gaps[0]);
    } else {
      var init, last, gap := Interleave(gaps[..n], lines[..n - 1]), lines[n - 1], gaps[n];
      assert Gaps(gaps[..n], lines[..n - 1]);
      InterleaveText(gaps[..n], lines[..n - 1]);
      FlattenLast(lines);
      NonSpaceConcat(init + last, gap);
      NonSpaceConcat(init, last);
      NonSpaceConcat(Flatten(lines[..n - 1]), last);
      NonSpaceEmpty(gap);
      Unit(NonSpace(init + last));
    }
  }

  /** One pass of the layout loop keeps the text woven from the lines so far,
      their gaps and the pending text; the new line, if it is kept, joins the
      lines, and the whitespace dropped around it joins the gaps. */
  lemma StepGaps(s: string, gaps: seq<string>, lines: seq<string>, lead: string, line: string, tail: string,
                 rest: string, append: bool) returns (gaps': seq<string>)
    requires Gaps(gaps, lines) && s == Interleave(gaps, lines) + (lead + ((line + tail) + rest))
    requires AllSpace(lead) && AllSpace(tail)
    requires !append ==> line == []
    ensures gaps' == if append then Widen(gaps, lead) + [tail] else Widen(gaps, lead + tail)
    ensures Gaps(gaps', if append then lines + [line] else lines)
    ensures s == Interleave(gaps', if append then lines + [line] else lines) + rest
  {
    Regroup5(Interleave(gaps, lines), lead, line, tail, rest);
    if append {
      WidenLast(gaps, lines, lead);
      AddLine(Widen(gaps, lead), lines, line, tail);
      gaps' := Widen(gaps, lead) + [tail];
    } else {
      AllSpaceConcat(lead, tail);
      WidenLast(gaps, lines, lead + tail);
      gaps' := Widen(gaps, lead + tail);
    }
  }

  /** A new line keeps the breaks admitted when its break from the line
      before is. */
  lemma BreaksSnoc(gaps: seq<string>, lines: seq<string>, width: nat, lead: string, tail: string, line: string)
    requires Breaks(gaps, lines, width)
    requires lines != [] ==> BreakOk(lines[|lines| - 1], gaps[|lines|] + lead, line, width)
    ensures Breaks(Widen(gaps, lead) + [tail], lines + [line], width)
  {
    var g, l := Widen(gaps, lead) + [tail], lines + [line];
    assert forall k :: 0 <= k < |lines| ==> g[k] == gaps[k] && l[k] == lines[k];
    assert l[|lines|] == line && g[|lines|] == gaps[|lines|] + lead;
  }

  /** More whitespace after the last line changes no break. */
  lemma BreaksWiden(gaps: seq<string>, lines: seq<string>, width: nat, x: string)
    requires Breaks(gaps, lines, width)
    ensures Breaks(Widen(gaps, x), lines, width)
  {
    assert forall k :: 0 <= k < |lines| ==> Widen(gaps, x)[k] == gaps[k];
  }

  /** The next line starts with the first pending chunk, or with as much of
      it as fits, unless that chunk is whitespace and dropped: either way
      its break from the line before is one `BreakOk` admits. */
  lemma BreakAfter(prev: string, gap: string, chunks: seq<string>, lead: string, next: string, width: nat)
    requires PendingOk(prev, gap, chunks, width)
    requires chunks != [] && Uniform(chunks[0])
    requires lead == (if AllSpace(chunks[0]) then chunks[0] else [])
    requires lead == [] ==> chunks[0][..Min(|chunks[0]|, width)] <= next
    ensures BreakOk(prev, gap + lead, next, width)
  {
    if gap == [] && !EndsInSpace(prev) && !AllSpace(chunks[0]) {
      var w := chunks[0][..Min(|chunks[0]|, width)];
      assert forall i :: 0 <= i < |w| ==> w[i] == chunks[0][i];
      WordStartAtLeast(w, next);
    }
  }

  /** Without lines, the text is one gap; splitting the empty result gives
      one empty line, and the text is that line with the gap before it. */
  lemma NoLines(s: string, width: nat)
    requires Separated(s, [], width)
    ensures Separated(s, [[]], width)
  {
    var gaps :| Gaps(gaps, []) && s == Interleave(gaps, []);
    var g: seq<string> := [s, []];
    var one: seq<string> := [[]];
    assert g[..1] == [s] && one[..0] == [];
    assert Interleave(g, [[]]) == s + [] + [];
    Unit(s);
    assert Gaps(g, [[]]) && Breaks(g, [[]], width);
  }

  /** Every line is at most `width` wide and has no line break in it. */
  ghost predicate LinesFit(lines: seq<string>, width: nat) {
    forall k :: 0 <= k < |lines| ==> |lines[k]| <= width && '\n' !in lines[k]
  }

  lemma LinesFitSnoc(lines: seq<string>, width: nat, line: string)
    requires LinesFit(lines, width) && |line| <= width && '\n' !in line
    ensures LinesFit(lines + [line], width)
  {
    assert forall k | 0 <= k < |lines| :: (lines + [line])[k] == lines[k];
  }

  /** `TextWrapper.wrap(text)`: the lines `fill` joins. Every line is at most
      `width` characters long and has no line break in it; the lines hold
      exactly the non-whitespace characters of `text`, in order, and break it
      only where `Separated` admits; empty text gives no lines, and a text
      that fits on one line comes back as it is. Python raises `ValueError`
      for a width below 1. */
  method Wrap(text: string, width: nat) returns (lines: seq<string>)
    requires width > 0
    ensures forall k :: 0 <= k < |lines| ==> |lines[k]| <= width
    ensures forall k :: 0 <= k < |lines| ==> '\n' !in lines[k]
    ensures NonSpace(Flatten(lines)) == NonSpace(text)
    ensures text == [] ==> lines == []
    ensures FitsOneLine(text, width) ==> lines == [text]
    ensures Separated(Munge(text), lines, width)
  {
    var chunks := SplitChunks(Munge(text));
    ghost var oneLine := FitsOneLine(text, width);
    lines := [];
    ghost var gaps: seq<string> := [[]];
    WrapStart(text, width, oneLine, chunks);
    while chunks != []
      invariant WrapState(text, width, oneLine, lines, chunks, gaps)
      decreases Weight(chunks)
    {
      var cur, rest;
      ghost var lead, tail;
      cur, rest, lead, tail := LayOutLine(chunks, width, lines != []);
      gaps := WrapStep(text, width, oneLine, lines, chunks, gaps, cur, rest, lead, tail);
      if cur != [] {
        lines := lines + [Flatten(cur)];
      }
      chunks := rest;
    }
    WrapEnd(text, width, oneLine, lines, gaps);
  }

  /** What the layout loop keeps: the lines so far fit, the pending chunks
      are whole and hold no line break, the munged text is the lines woven
      with their gaps followed by the pending chunks, every break so far is
      admitted and so is the one after the last line, whatever comes next,
      and a text that fits on one line is still pending whole or has become
      the only line. */
  ghost predicate WrapState(text: string, width: nat, oneLine: bool, lines: seq<string>,
                            chunks: seq<string>, gaps: seq<string>) {
    && LinesFit(lines, width)
    && '\n' !in Flatten(chunks)
    && Chunked(chunks)
    && (text == [] ==> chunks == [] && lines == [])
    && (oneLine ==> (lines == [] && Flatten(chunks) == text && FitsAsIs(chunks, width))
                    || (lines == [text] && chunks == []))
    && Gaps(gaps, lines) && Munge(text) == Interleave(gaps, lines) + Flatten(chunks)
    && Breaks(gaps, lines, width)
    && (lines != [] ==> PendingOk(lines[|lines| - 1], gaps[|lines|], chunks, width))
  }

  lemma WrapStart(text: string, width: nat, oneLine: bool, chunks: seq<string>)
    requires width > 0 && chunks == SplitChunks(Munge(text))
    requires oneLine == FitsOneLine(text, width)
    ensures WrapState(text, width, oneLine, [], chunks, [[]])
  {
    MungeKeepsText(text);
    ChunksAlternate(Munge(text));
    StartEmpty(text);
    if oneLine {
      StartOneLine(text, width);
    }
    StartGaps(Munge(text), width);
  }

  lemma StartEmpty(text: string)
    ensures text == [] ==> SplitChunks(Munge(text)) == []
  {
    assert text == [] ==> Munge(text) == [];
  }

  lemma StartOneLine(text: string, width: nat)
    requires FitsOneLine(text, width)
    ensures Flatten(SplitChunks(Munge(text))) == text
    ensures FitsAsIs(SplitChunks(Munge(text)), width)
  {
    MungeIdentity(text);
  }

  lemma StartGaps(s: string, width: nat)
    ensures Gaps([[]], []) && s == Interleave([[]], []) + s && Breaks([[]], [], width)
  {
    Unit(s);
  }

  /** One pass of the layout loop keeps the loop's state. */
  lemma WrapStep(text: string, width: nat, oneLine: bool, lines: seq<string>, chunks: seq<string>,
                 gaps: seq<string>, cur: seq<string>, rest: seq<string>, lead: string, tail: string)
    returns (gaps': seq<string>)
    requires width > 0 && chunks != [] && WrapState(text, width, oneLine, lines, chunks, gaps)
    requires |Flatten(cur)| <= width
    requires '\n' !in Flatten(chunks) ==> '\n' !in Flatten(cur) && '\n' !in Flatten(rest)
    requires Flatten(chunks) == lead + ((Flatten(cur) + tail) + Flatten(rest))
    requires lead == (if lines != [] && AllSpace(chunks[0]) then chunks[0] else [])
    requires AllSpace(lead) && AllSpace(tail)
    requires cur == [] <==> Flatten(cur) == []
    requires cur == [] ==> lead != [] || tail != []
    requires lead == [] && cur != [] ==> chunks[0][..Min(|chunks[0]|, width)] <= Flatten(cur)
    requires Chunked(rest)
    requires cur != [] ==> PendingOk(Flatten(cur), tail, rest, width)
    requires lines == [] && FitsAsIs(chunks, width) ==> rest == [] && Flatten(cur) == Flatten(chunks)
    ensures WrapState(text, width, oneLine, if cur != [] then lines + [Flatten(cur)] else lines, rest, gaps')
  {
    var line := Flatten(cur);
    gaps' := StepGaps(Munge(text), gaps, lines, lead, line, tail, Flatten(rest), cur != []);
    if cur != [] {
      FlattenBack(lines, line);
      LinesFitSnoc(lines, width, line);
      if lines != [] {
        BreakAfter(lines[|lines| - 1], gaps[|lines|], chunks, lead, line, width);
      }
      BreaksSnoc(gaps, lines, width, lead, tail, line);
      assert (lines + [line])[|lines|] == line;
    } else {
      BreaksWiden(gaps, lines, width, lead + tail);
      assert gaps'[|lines|] == gaps[|lines|] + (lead + tail);
    }
  }

  lemma WrapEnd(text: string, width: nat, oneLine: bool, lines: seq<string>, gaps: seq<string>)
    requires WrapState(text, width, oneLine, lines, [], gaps) && oneLine == FitsOneLine(text, width)
    ensures forall k :: 0 <= k < |lines| ==> |lines[k]| <= width
    ensures forall k :: 0 <= k < |lines| ==> '\n' !in lines[k]
    ensures NonSpace(Flatten(lines)) == NonSpace(text)
    ensures text == [] ==> lines == []
    ensures FitsOneLine(text, width) ==> lines == [text]
    ensures Separated(Munge(text), lines, width)
  {
    Unit(Interleave(gaps, lines));
    InterleaveText(gaps, lines);
    MungeKeepsText(text);
  }

  /** `textwrap.fill(text, width)`: the lines of `Wrap`, joined with "\n".
      Splitting the result at its line breaks gives lines of at most `width`
      characters, broken only where `Separated` admits; no visible character
      is added, dropped or reordered. */
  method Fill(text: string, width: nat) returns (r: string)
    requires width > 0
    ensures forall k :: 0 <= k < |SplitOn(r, '\n')| ==> |SplitOn(r, '\n')[k]| <= width
    ensures NonSpace(r) == NonSpace(text)
    ensures text == [] ==> r == []
    ensures FitsOneLine(text, width) ==> r == text
    ensures Separated(Munge(text), SplitOn(r, '\n'), width)
  {
    var lines := Wrap(text, width);
    r := Join(lines, "\n");
    NonSpaceJoin(lines, "\n");
    if lines != [] {
      SplitJoin(lines, '\n');
    } else {
      NoLines(Munge(text), width);
    }
  }
}
