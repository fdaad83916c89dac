/**
 Removal of the transaction markers around a migration body.

 Text is a sequence of bytes.  A dollar quote opens at a `$tag$` token and closes at the
 next equal token; tags inside a quote are ignored otherwise.
 */
module StripTx {

  type byte = b: int | 0 <= b < 256

  type Text = seq<byte>

  const NL: byte := 10
  const DOLLAR: byte := 36

  /** "BEGIN;" and "COMMIT;". */
  const BEGIN_MARK: Text := [66, 69, 71, 73, 78, 59]
  const COMMIT_MARK: Text := [67, 79, 77, 77, 73, 84, 59]

  predicate IsDollarTagChar(b: byte) {
    || 97 <= b <= 122
    || 65 <= b <= 90
    || 48 <= b <= 57
    || b == 95
  }

  // ---- Trimming ----

  /** Width of the white-space rune at the front of `s`, in UTF-8; 0 if there is none. */
  function SpaceWidth(s: Text): (n: nat)
    ensures n <= |s|
  {
    if |s| >= 1 && (9 <= s[0] <= 13 || s[0] == 32) then 1
    else if |s| >= 2 && s[0] == 0xC2 && (s[1] == 0x85 || s[1] == 0xA0) then 2
    else if |s| >= 3 && s[0] == 0xE1 && s[1] == 0x9A && s[2] == 0x80 then 3
    else if |s| >= 3 && s[0] == 0xE2 && s[1] == 0x80
      && (0x80 <= s[2] <= 0x8A || s[2] == 0xA8 || s[2] == 0xA9 || s[2] == 0xAF) then 3
    else if |s| >= 3 && s[0] == 0xE2 && s[1] == 0x81 && s[2] == 0x9F then 3
    else if |s| >= 3 && s[0] == 0xE3 && s[1] == 0x80 && s[2] == 0x80 then 3
    else 0
  }

  /** Width of the white-space rune at the end of `s`; 0 if there is none. */
  function EndSpaceWidth(s: Text): (n: nat)
    ensures n <= |s|
  {
    if |s| >= 1 && SpaceWidth(s[|s| - 1..]) == 1 then 1
    else if |s| >= 2 && SpaceWidth(s[|s| - 2..]) == 2 then 2
    else if |s| >= 3 && SpaceWidth(s[|s| - 3..]) == 3 then 3
    else 0
  }

  function TrimLeft(s: Text): Text
    decreases |s|
  {
    var n := SpaceWidth(s);
    if n == 0 then s else TrimLeft(s[n..])
  }

  function TrimRight(s: Text): Text
    decreases |s|
  {
    var n := EndSpaceWidth(s);
    if n == 0 then s else TrimRight(s[..|s| - n])
  }

  function TrimSpace(s: Text): Text {
    TrimRight(TrimLeft(s))
  }

  /** A line that is a transaction marker and nothing else. */
  predicate IsMarker(line: Text) {
    var t := TrimSpace(line);
    t == BEGIN_MARK || t == COMMIT_MARK
  }

  // ---- The dollar-quote lexer ----

  datatype Quote = Outside | Inside(tag: Text)

  /** First position from `j` on that is not a tag character. */
  function TagEnd(s: Text, j: nat): (e: nat)
    requires j <= |s|
    ensures j <= e <= |s|
    decreases |s| - j
  {
    if j < |s| && IsDollarTagChar(s[j]) then TagEnd(s, j + 1) else j
  }

  /** Length of the `$tag$` token at position `i`; 0 if no token starts there. */
  function TokenLength(s: Text, i: nat): (n: nat)
    requires i < |s|
    ensures n == 0 || (n >= 2 && i + n <= |s|)
  {
    if s[i] != DOLLAR then 0
    else
      var e := TagEnd(s, i + 1);
      if e < |s| && s[e] == DOLLAR then e + 1 - i else 0
  }

  /** The quote state after a token. */
  function Toggle(q: Quote, tag: Text): Quote {
    match q
    case Outside => Inside(tag)
    case Inside(t) => if t == tag then Outside else q
  }

  /** How far the lexer moves at position `i`: over a token, or over one byte. */
  function Advance(s: Text, i: nat): (n: nat)
    requires i < |s|
    ensures 1 <= n <= |s| - i
  {
    if TokenLength(s, i) == 0 then 1 else TokenLength(s, i)
  }

  /** The quote state behind position `i`. */
  function After(s: Text, i: nat, q: Quote): Quote
    requires i < |s|
  {
    if TokenLength(s, i) == 0 then q else Toggle(q, s[i..i + TokenLength(s, i)])
  }

  /** One scan of `s` from position `i` up to position `stop`. */
  function Scan(s: Text, i: nat, stop: nat, q: Quote): Quote
    requires stop <= |s|
    decreases |s| - i
  {
    if i >= stop then q else Scan(s, i + Advance(s, i), stop, After(s, i, q))
  }

  /** The state that one scan over the whole text has at position `p`. */
  function StateAt(s: Text, p: nat): Quote
    requires p <= |s|
  {
    Scan(s, 0, p, Outside)
  }

  // ---- Lines ----

  function Index(s: Text, b: byte): (n: nat)
    ensures n <= |s|
  {
    if s == [] || s[0] == b then 0 else 1 + Index(s[1..], b)
  }

  /** The lines of a text; a text with n newlines has n + 1 of them. */
  function Split(s: Text): (lines: seq<Text>)
    ensures |lines| > 0
    decreases |s|
  {
    var n := Index(s, NL);
    if n == |s| then [s] else [s[..n]] + Split(s[n + 1..])
  }

  /** Every line, with a newline after each. */
  function Unlines(lines: seq<Text>): Text {
    if lines == [] then [] else lines[0] + [NL] + Unlines(lines[1..])
  }

  ghost predicate OneLine(line: Text) {
    NL !in line
  }

  /** The state of the line tracker before line `k`. */
  function LineState(lines: seq<Text>, k: nat): Quote
    requires k <= |lines|
  {
    if k == 0 then Outside
    else Scan(lines[k - 1], 0, |lines[k - 1]|, LineState(lines, k - 1))
  }

  /** What becomes of line `k`. */
  function Kept(lines: seq<Text>, k: nat): Text
    requires k < |lines|
  {
    if LineState(lines, k) == Outside && IsMarker(lines[k]) then [] else lines[k]
  }

  function KeptLines(lines: seq<Text>): seq<Text> {
    seq(|lines|, k requires 0 <= k < |lines| => Kept(lines, k))
  }

  // ---- The function under study ----

  lemma UnlinesAppend(lines: seq<Text>, line: Text)
    ensures Unlines(lines + [line]) == Unlines(lines) + line + [NL]
  {
    if lines != [] {
      assert (lines + [line])[1..] == lines[1..] + [line];
      UnlinesAppend(lines[1..], line);
    }
  }

  lemma LineStateStep(lines: seq<Text>, k: nat, line: Text)
    requires k < |lines| && lines[k] == line
    ensures LineState(lines, k + 1) == Scan(line, 0, |line|, LineState(lines, k))
  {
  }

  /** The tracker's two variables as one state. */
  function Tracked(depth: int, openTag: Text): Quote {
    if depth == 0 then Outside else Inside(openTag)
  }

  /** The inner loops: move `depth` and `openTag` over one line. */
  method TrackLine(line: Text, depth0: int, openTag0: Text) returns (depth: int, openTag: Text)
    ensures Tracked(depth, openTag) == Scan(line, 0, |line|, Tracked(depth0, openTag0))
  {
    hide Scan;
    depth, openTag := depth0, openTag0;
    var i := 0;
    while i < |line|
      invariant Scan(line, 0, |line|, Tracked(depth0, openTag0)) == Scan(line, i, |line|, Tracked(depth, openTag))
      decreases |line| - i
    {
      ScanOnce(line, i, |line|, Tracked(depth, openTag));
      if line[i] != DOLLAR {
        i := i + 1;
        continue;
      }
      var j := i + 1;
      while j < |line| && IsDollarTagChar(line[j])
        invariant i + 1 <= j <= |line|
        invariant TagEnd(line, i + 1) == TagEnd(line, j)
      {
        j := j + 1;
      }
      if j < |line| && line[j] == DOLLAR {
        var tag := line[i..j + 1];
        if depth == 0 {
          depth := 1;
          openTag := tag;
        } else if tag == openTag {
          depth := 0;
          openTag := [];
        }
        i := j + 1;
        continue;
      }
      i := i + 1;
    }
    ScanDone(line, i, |line|, Tracked(depth, openTag));
  }

  lemma ScanOnce(s: Text, i: nat, stop: nat, q: Quote)
    requires i < stop <= |s|
    ensures Scan(s, i, stop, q) == Scan(s, i + Advance(s, i), stop, After(s, i, q))
  {
  }

  lemma ScanDone(s: Text, i: nat, stop: nat, q: Quote)
    requires stop <= i && stop <= |s|
    ensures Scan(s, i, stop, q) == q
  {
  }

  /** The output for the first `n` lines. */
  ghost function TextSoFar(lines: seq<Text>, n: nat): Text
    requires n <= |lines|
  {
    Unlines(KeptLines(lines)[..n])
  }

  lemma NoLines(lines: seq<Text>)
    ensures TextSoFar(lines, 0) == [] && LineState(lines, 0) == Outside
  {
  }

  lemma NextLine(lines: seq<Text>, n: nat, line: Text)
    requires n < |lines| && lines[n] == line
    ensures TextSoFar(lines, n + 1) == TextSoFar(lines, n)
      + (if LineState(lines, n) == Outside && IsMarker(line) then [] else line) + [NL]
  {
    hide LineState, IsMarker;
    assert KeptLines(lines)[..n + 1] == KeptLines(lines)[..n] + [Kept(lines, n)];
    UnlinesAppend(KeptLines(lines)[..n], Kept(lines, n));
  }

  lemma AllLines(s: Text)
    ensures TextSoFar(Split(s), |Split(s)|) == Stripped(s)
  {
    hide Split, Kept;
    assert KeptLines(Split(s))[..|Split(s)|] == KeptLines(Split(s));
  }

  /** Blanks the markers that stand at top level before their line is read. */
  method StripWrappingTx(s: Text) returns (out: Text)
    ensures out == Stripped(s)
  {
    hide Split, Scan, LineState, TextSoFar, TrimSpace, Stripped;
    out := [];
    var depth := 0;
    var openTag: Text := [];
    var lines := Split(s);
    NoLines(lines);
    for n := 0 to |lines|
      invariant Tracked(depth, openTag) == LineState(lines, n)
      invariant out == TextSoFar(lines, n)
    {
      var line := lines[n];
      var preDepth := depth;
      depth, openTag := TrackLine(line, depth, openTag);
      LineStateStep(lines, n, line);
      NextLine(lines, n, line);
      if preDepth == 0 {
        var trim := TrimSpace(line);
        if trim == BEGIN_MARK || trim == COMMIT_MARK {
          out := out + [NL];
          continue;
        }
      }
      out := out + line;
      out := out + [NL];
    }
    AllLines(s);
  }

  /** `StripWrappingTx` as a function. */
  function Stripped(s: Text): Text {
    Unlines(KeptLines(Split(s)))
  }

  // ---- The words and the white space ----

  function Byte(c: char): byte
    requires c < '\U{80}'
  {
    c as int
  }

  predicate Ascii(w: string) {
    forall i :: 0 <= i < |w| ==> w[i] < '\U{80}'
  }

  function Bytes(w: string): Text
    requires Ascii(w)
  {
    seq(|w|, i requires 0 <= i < |w| => Byte(w[i]))
  }

  lemma MarkersAreTheWords()
    ensures BEGIN_MARK == Bytes("BEGIN;") && COMMIT_MARK == Bytes("COMMIT;")
  {
  }

  lemma TagCharsAre(c: char)
    requires c < '\U{80}'
    ensures IsDollarTagChar(Byte(c)) <==> 'a' <= c <= 'z' || 'A' <= c <= 'Z' || '0' <= c <= '9' || c == '_'
    ensures NL == Byte('\n') && DOLLAR == Byte('$')
  {
  }

  /** Code points with the White_Space property of Unicode. */
  predicate WhiteSpace(c: nat) {
    || 0x09 <= c <= 0x0D || c == 0x20 || c == 0x85 || c == 0xA0 || c == 0x1680
    || 0x2000 <= c <= 0x200A || c == 0x2028 || c == 0x2029 || c == 0x202F || c == 0x205F || c == 0x3000
  }

  /** UTF-8 of a code point of the basic plane. */
  function Utf8(c: nat): Text
    requires c < 0x1_0000
  {
    if c < 0x80 then [c]
    else if c < 0x800 then [0xC0 + c / 64, 0x80 + c % 64]
    else [0xE0 + c / 4096, 0x80 + c / 64 % 64, 0x80 + c % 64]
  }

  // ---- Lines and texts ----

  lemma {:induction false} IndexFinds(s: Text, b: byte)
    ensures Index(s, b) < |s| ==> s[Index(s, b)] == b
    ensures b !in s[..Index(s, b)]
    decreases |s|
  {
    if s != [] && s[0] != b {
      IndexFinds(s[1..], b);
      var n := Index(s[1..], b);
      assert s[..n + 1] == [s[0]] + s[1..][..n];
    }
  }

  lemma {:induction false} IndexIs(line: Text, b: byte, rest: Text)
    requires b !in line
    ensures Index(line + [b] + rest, b) == |line|
    decreases |line|
  {
    var s := line + [b] + rest;
    if line != [] {
      assert s[0] in line;
      assert s[1..] == line[1..] + [b] + rest;
      IndexIs(line[1..], b, rest);
    }
  }

  lemma {:induction false} SplitHasNoNewlines(s: Text)
    ensures forall k :: 0 <= k < |Split(s)| ==> OneLine(Split(s)[k])
    decreases |s|
  {
    var n := Index(s, NL);
    IndexFinds(s, NL);
    assert s[..|s|] == s;
    if n < |s| {
      SplitHasNoNewlines(s[n + 1..]);
    }
  }

  lemma {:induction false} SplitPrepend(line: Text, rest: Text)
    requires OneLine(line)
    ensures Split(line + [NL] + rest) == [line] + Split(rest)
  {
    var s := line + [NL] + rest;
    IndexIs(line, NL, rest);
    assert s[..|line|] == line && s[|line| + 1..] == rest;
  }

  /** Writing lines out and splitting again gives them back, and one empty line. */
  lemma {:induction false} SplitUnlines(lines: seq<Text>)
    requires forall k :: 0 <= k < |lines| ==> OneLine(lines[k])
    ensures Split(Unlines(lines)) == lines + [[]]
    decreases |lines|
  {
    if lines != [] {
      SplitUnlines(lines[1..]);
      SplitPrepend(lines[0], Unlines(lines[1..]));
      assert lines + [[]] == [lines[0]] + (lines[1..] + [[]]);
    }
  }

  /** Splitting loses nothing but the missing final newline. */
  lemma {:induction false} UnlinesSplit(s: Text)
    ensures Unlines(Split(s)) == s + [NL]
    decreases |s|
  {
    var n := Index(s, NL);
    IndexFinds(s, NL);
    if n == |s| {
      assert Split(s)[1..] == [];
    } else {
      UnlinesSplit(s[n + 1..]);
      assert Split(s)[1..] == Split(s[n + 1..]);
      assert s + [NL] == s[..n] + [NL] + (s[n + 1..] + [NL]);
    }
  }

  // ---- The line tracker is one scan over the text ----

  /** Where line `k` starts. */
  function Offset(lines: seq<Text>, k: nat): nat
    requires k <= |lines|
  {
    if k == 0 then 0 else Offset(lines, k - 1) + |lines[k - 1]| + 1
  }

  /** Text `line` stands at `off` in `s` and is followed by a newline or by nothing. */
  ghost predicate StandsAt(s: Text, off: nat, line: Text) {
    && off + |line| <= |s|
    && (forall k :: 0 <= k < |line| ==> line[k] == s[off + k])
    && (off + |line| < |s| ==> s[off + |line|] == NL)
  }

  lemma {:induction false} OffsetShift(line: Text, rest: seq<Text>, k: nat)
    requires k <= |rest|
    ensures Offset([line] + rest, k + 1) == |line| + 1 + Offset(rest, k)
  {
    if k > 0 {
      OffsetShift(line, rest, k - 1);
    }
  }

  lemma StandsAtShift(s: Text, m: nat, off: nat, line: Text)
    requires m <= |s| && StandsAt(s[m..], off, line)
    ensures StandsAt(s, m + off, line)
  {
  }

  /** The lines of `s`, spelled out: each one stands at its offset. */
  ghost predicate LinesStand(s: Text, lines: seq<Text>) {
    forall k {:trigger StandsAt(s, Offset(lines, k), lines[k])} ::
      0 <= k < |lines| ==> StandsAt(s, Offset(lines, k), lines[k])
  }

  lemma PrependLineStands(s: Text, n: nat, tail: seq<Text>)
    requires n < |s| && s[n] == NL && LinesStand(s[n + 1..], tail)
    ensures LinesStand(s, [s[..n]] + tail)
  {
    var lines := [s[..n]] + tail;
    forall k | 0 <= k < |lines|
      ensures StandsAt(s, Offset(lines, k), lines[k])
    {
      if k > 0 {
        OffsetShift(s[..n], tail, k - 1);
        assert StandsAt(s[n + 1..], Offset(tail, k - 1), tail[k - 1]);
        StandsAtShift(s, n + 1, Offset(tail, k - 1), tail[k - 1]);
      }
    }
  }

  lemma {:induction false} SplitLinesStand(s: Text)
    ensures LinesStand(s, Split(s))
    decreases |s|
  {
    var n := Index(s, NL);
    IndexFinds(s, NL);
    if n < |s| {
      SplitLinesStand(s[n + 1..]);
      PrependLineStands(s, n, Split(s[n + 1..]));
    }
  }

  lemma SplitStep(s: Text, n: nat, rest: Text)
    requires n == Index(s, NL)
    requires n < |s| ==> rest == s[n + 1..]
    ensures Split(s) == if n == |s| then [s] else [s[..n]] + Split(rest)
  {
    hide Index;
  }

  /** Where the last line ends. */
  ghost function End(lines: seq<Text>): nat
    requires lines != []
  {
    Offset(lines, |lines| - 1) + |lines[|lines| - 1]|
  }

  lemma EndShift(line: Text, tail: seq<Text>)
    requires tail != []
    ensures End([line]) == |line| && End([line] + tail) == |line| + 1 + End(tail)
  {
    OffsetShift(line, tail, |tail| - 1);
  }

  lemma {:induction false} LastLineEndsText(s: Text)
    ensures End(Split(s)) == |s|
    decreases |s|
  {
    hide Split, Index, End;
    var n := Index(s, NL);
    var rest := if n < |s| then s[n + 1..] else [];
    SplitStep(s, n, rest);
    if n < |s| {
      LastLineEndsText(rest);
      EndShift(s[..n], Split(rest));
    } else {
      EndShift(s, Split(s));
    }
  }

  /** A line starts at the front of the text or behind a newline. */
  ghost predicate StartsLine(s: Text, off: nat) {
    off <= |s| && (off > 0 ==> s[off - 1] == NL)
  }

  lemma LineStart(s: Text, lines: seq<Text>, k: nat)
    requires LinesStand(s, lines) && k < |lines|
    ensures StartsLine(s, Offset(lines, k))
  {
    assert StandsAt(s, Offset(lines, k), lines[k]);
    if k > 0 {
      assert StandsAt(s, Offset(lines, k - 1), lines[k - 1]);
    }
  }

  lemma {:induction false} TagEndLocal(s: Text, off: nat, line: Text, j: nat)
    requires StandsAt(s, off, line) && j <= |line|
    ensures TagEnd(s, off + j) == off + TagEnd(line, j)
    decreases |line| - j
  {
    if j < |line| {
      assert s[off + j] == line[j];
      if IsDollarTagChar(line[j]) {
        TagEndLocal(s, off, line, j + 1);
      }
    }
  }

  lemma SameSlice(s: Text, off: nat, line: Text, i: nat, n: nat)
    requires StandsAt(s, off, line) && i + n <= |line|
    ensures s[off + i..off + i + n] == line[i..i + n]
  {
    var a, b := s[off + i..off + i + n], line[i..i + n];
    assert forall k :: 0 <= k < n ==> b[k] == line[i + k] && a[k] == b[k];
  }

  /** Tokens never reach past the end of their line. */
  lemma TokenLocal(s: Text, off: nat, line: Text, i: nat)
    requires StandsAt(s, off, line) && i < |line|
    ensures TokenLength(s, off + i) == TokenLength(line, i)
    ensures var n := TokenLength(line, i); s[off + i..off + i + n] == line[i..i + n]
  {
    assert s[off + i] == line[i];
    TagEndLocal(s, off, line, i + 1);
    var e := TagEnd(line, i + 1);
    assert e < |line| ==> s[off + e] == line[e];
    SameSlice(s, off, line, i, TokenLength(line, i));
  }

  lemma StepLocal(s: Text, off: nat, line: Text, i: nat, q: Quote)
    requires StandsAt(s, off, line) && i < |line|
    ensures Advance(s, off + i) == Advance(line, i) && After(s, off + i, q) == After(line, i, q)
  {
    TokenLocal(s, off, line, i);
  }

  /** The newline behind a line, if the scan includes it, changes nothing. */
  lemma ScanNewline(s: Text, off: nat, line: Text, stop: nat, q: Quote)
    requires StandsAt(s, off, line)
    requires off + |line| <= stop <= off + |line| + 1 && stop <= |s|
    ensures Scan(s, off + |line|, stop, q) == q
  {
  }

  lemma {:induction false} ScanLocal(s: Text, off: nat, line: Text, i: nat, stop: nat, q: Quote)
    requires StandsAt(s, off, line) && i <= |line|
    requires off + |line| <= stop <= off + |line| + 1 && stop <= |s|
    ensures Scan(s, off + i, stop, q) == Scan(line, i, |line|, q)
    decreases |line| - i
  {
    hide StandsAt, Scan, Advance, After;
    if i < |line| {
      StepLocal(s, off, line, i, q);
      ScanOnce(s, off + i, stop, q);
      ScanOnce(line, i, |line|, q);
      ScanLocal(s, off, line, i + Advance(line, i), stop, After(line, i, q));
    } else {
      ScanNewline(s, off, line, stop, q);
      ScanDone(line, i, |line|, q);
    }
  }

  /** A scan may be interrupted at the start of a line. */
  lemma {:induction false} ScanSplits(s: Text, i: nat, m: nat, stop: nat, q: Quote)
    requires i <= m <= stop <= |s|
    requires m > 0 ==> s[m - 1] == NL
    ensures Scan(s, i, stop, q) == Scan(s, m, stop, Scan(s, i, m, q))
    decreases m - i
  {
    if i < m {
      TokenHasNoNewline(s, i, m - 1);
      ScanSplits(s, i + Advance(s, i), m, stop, After(s, i, q));
    }
  }

  lemma {:induction false} TagHasNoNewline(s: Text, j: nat, p: nat)
    requires j <= p < |s| && s[p] == NL
    ensures TagEnd(s, j) <= p
    decreases p - j
  {
    if j < p && IsDollarTagChar(s[j]) {
      TagHasNoNewline(s, j + 1, p);
    }
  }

  lemma TokenHasNoNewline(s: Text, i: nat, p: nat)
    requires i <= p < |s| && s[p] == NL
    ensures i + TokenLength(s, i) <= p + 1
  {
    if i < p {
      TagHasNoNewline(s, i + 1, p);
    }
  }

  lemma OneMoreLine(s: Text, here: nat, line: Text, stop: nat)
    requires StartsLine(s, here) && StandsAt(s, here, line)
    requires here + |line| <= stop <= here + |line| + 1 && stop <= |s|
    ensures StateAt(s, stop) == Scan(line, 0, |line|, StateAt(s, here))
  {
    ScanSplits(s, 0, here, stop, Outside);
    ScanLocal(s, here, line, 0, stop, StateAt(s, here));
  }

  lemma {:induction false} TrackerOverLines(s: Text, lines: seq<Text>, k: nat)
    requires LinesStand(s, lines) && k < |lines|
    ensures Offset(lines, k) <= |s| && LineState(lines, k) == StateAt(s, Offset(lines, k))
    decreases k
  {
    LineStart(s, lines, k);
    if k > 0 {
      var here := Offset(lines, k - 1);
      var line := lines[k - 1];
      TrackerOverLines(s, lines, k - 1);
      LineStart(s, lines, k - 1);
      assert StandsAt(s, here, line);
      OneMoreLine(s, here, line, here + |line| + 1);
      LineStateStep(lines, k - 1, line);
    }
  }

  /**
   At the start of every line, and at the end of the text, the tracker that works line by
   line is in the state of a single scan over the whole text.
   */
  lemma TrackerIsOneScan(s: Text, k: nat)
    requires k < |Split(s)|
    ensures Offset(Split(s), k) <= |s| && LineState(Split(s), k) == StateAt(s, Offset(Split(s), k))
    ensures LineState(Split(s), |Split(s)|) == StateAt(s, |s|)
  {
    SplitLinesStand(s);
    LastLineEndsText(s);
    TrackerOverLines(s, Split(s), k);
    TrackerAtEnd(s, Split(s));
  }

  lemma TrackerAtEnd(s: Text, lines: seq<Text>)
    requires LinesStand(s, lines) && lines != []
    requires End(lines) == |s|
    ensures LineState(lines, |lines|) == StateAt(s, |s|)
  {
    var k := |lines| - 1;
    TrackerOverLines(s, lines, k);
    LineStart(s, lines, k);
    assert StandsAt(s, Offset(lines, k), lines[k]);
    OneMoreLine(s, Offset(lines, k), lines[k], |s|);
    LineStateStep(lines, k, lines[k]);
  }

  // ---- What a marker line looks like ----

  /** One white-space rune in UTF-8. */
  predicate SpaceRune(r: Text) {
    r != [] && SpaceWidth(r) == |r|
  }

  /** What is trimmed is the UTF-8 of white space, and all of it. */
  lemma SpaceRuneIff(r: Text)
    ensures SpaceRune(r) <==> exists c: nat :: c < 0x1_0000 && WhiteSpace(c) && r == Utf8(c)
  {
    if SpaceRune(r) {
      var b: seq<int> := r;
      var c: int := if |b| == 1 then b[0] else if |b| == 2 then (b[0] - 0xC0) * 64 + b[1] - 0x80
        else (b[0] - 0xE0) * 4096 + (b[1] - 0x80) * 64 + b[2] - 0x80;
      assert 0 <= c < 0x1_0000 && WhiteSpace(c) && r == Utf8(c);
    }
    if c: nat :| c < 0x1_0000 && WhiteSpace(c) && r == Utf8(c) {
      WhiteSpaceIsTrimmed(c);
    }
  }

  lemma WhiteSpaceIsTrimmed(c: nat)
    requires c < 0x1_0000 && WhiteSpace(c)
    ensures SpaceRune(Utf8(c))
  {
    if 0x2000 <= c <= 0x200A {
      assert Utf8(c) == [0xE2, 0x80, 0x80 + (c - 0x2000)];
    }
  }

  ghost predicate SpaceRunes(rs: seq<Text>) {
    forall i :: 0 <= i < |rs| ==> SpaceRune(rs[i])
  }

  /** The runes written one behind the other. */
  function Concat(rs: seq<Text>): Text {
    if rs == [] then [] else Concat(rs[..|rs| - 1]) + rs[|rs| - 1]
  }

  lemma {:induction false} ConcatFront(rs: seq<Text>)
    requires rs != []
    ensures Concat(rs) == rs[0] + Concat(rs[1..])
    decreases |rs|
  {
    if |rs| > 1 {
      var init := rs[..|rs| - 1];
      ConcatFront(init);
      assert init[1..] == rs[1..][..|rs| - 2];
    }
  }

  lemma SpaceAtFront(r: Text, x: Text)
    requires SpaceRune(r)
    ensures SpaceWidth(r + x) == |r|
  {
  }

  lemma SpaceAtEnd(x: Text, r: Text)
    requires SpaceRune(r)
    ensures EndSpaceWidth(x + r) == |r|
  {
    var s := x + r;
    assert s[|s| - |r|..] == r;
    assert s[|s| - 1] == r[|r| - 1];
    assert |s| >= 2 && |r| >= 2 ==> s[|s| - 2] == r[|r| - 2];
  }

  lemma {:induction false} TrimLeftDropsRunes(rs: seq<Text>, x: Text)
    requires SpaceRunes(rs)
    ensures TrimLeft(Concat(rs) + x) == TrimLeft(x)
    decreases |rs|
  {
    if rs == [] {
      assert Concat(rs) + x == x;
    } else {
      ConcatFront(rs);
      var rest := Concat(rs[1..]) + x;
      assert Concat(rs) + x == rs[0] + rest;
      SpaceAtFront(rs[0], rest);
      assert (rs[0] + rest)[|rs[0]|..] == rest;
      TrimLeftDropsRunes(rs[1..], x);
    }
  }

  lemma {:induction false} TrimRightDropsRunes(x: Text, rs: seq<Text>)
    requires SpaceRunes(rs)
    ensures TrimRight(x + Concat(rs)) == TrimRight(x)
    decreases |rs|
  {
    if rs == [] {
      assert x + Concat(rs) == x;
    } else {
      var init, last := rs[..|rs| - 1], rs[|rs| - 1];
      var front := x + Concat(init);
      assert x + Concat(rs) == front + last;
      SpaceAtEnd(front, last);
      assert (front + last)[..|front|] == front;
      TrimRightDropsRunes(x, init);
    }
  }

  lemma FrontSpaceIsRune(s: Text)
    requires SpaceWidth(s) > 0
    ensures SpaceRune(s[..SpaceWidth(s)])
  {
  }

  lemma EndSpaceIsRune(s: Text) returns (r: Text)
    requires EndSpaceWidth(s) > 0
    ensures SpaceRune(r) && s == s[..|s| - EndSpaceWidth(s)] + r
  {
    hide SpaceWidth;
    r := s[|s| - EndSpaceWidth(s)..];
  }

  lemma PrependRune(r: Text, rs: seq<Text>)
    requires SpaceRune(r) && SpaceRunes(rs)
    ensures SpaceRunes([r] + rs) && Concat([r] + rs) == r + Concat(rs)
  {
    ConcatFront([r] + rs);
    assert ([r] + rs)[1..] == rs;
  }

  lemma AppendRune(rs: seq<Text>, r: Text)
    requires SpaceRune(r) && SpaceRunes(rs)
    ensures SpaceRunes(rs + [r]) && Concat(rs + [r]) == Concat(rs) + r
  {
    assert (rs + [r])[..|rs|] == rs;
  }

  lemma Reassociate(a: Text, b: Text, c: Text)
    ensures (a + b) + c == a + (b + c)
  {
  }

  lemma TrimLeftStep(s: Text)
    ensures SpaceWidth(s) == 0 ==> TrimLeft(s) == s
    ensures SpaceWidth(s) > 0 ==> TrimLeft(s) == TrimLeft(s[SpaceWidth(s)..])
  {
  }

  lemma TrimRightStep(s: Text)
    ensures EndSpaceWidth(s) == 0 ==> TrimRight(s) == s
    ensures EndSpaceWidth(s) > 0 ==> TrimRight(s) == TrimRight(s[..|s| - EndSpaceWidth(s)])
  {
  }

  lemma {:induction false} TrimLeftWitness(s: Text) returns (rs: seq<Text>)
    ensures SpaceRunes(rs) && s == Concat(rs) + TrimLeft(s)
    decreases |s|
  {
    hide *;
    ConcatNothing(TrimLeft(s));
    TrimLeftStep(s);
    var n := SpaceWidth(s);
    if n == 0 {
      rs := [];
    } else {
      var r, rest := s[..n], s[n..];
      assert s == r + rest;
      var tail := TrimLeftWitness(rest);
      FrontSpaceIsRune(s);
      PrependRune(r, tail);
      rs := [r] + tail;
      Reassociate(r, Concat(tail), TrimLeft(s));
    }
  }

  lemma AppendRuneTo(s: Text, rest: Text, t: Text, init: seq<Text>, r: Text)
    requires s == rest + r && rest == t + Concat(init) && SpaceRune(r) && SpaceRunes(init)
    ensures SpaceRunes(init + [r]) && s == t + Concat(init + [r])
  {
    hide Concat, SpaceRune;
    AppendRune(init, r);
    Reassociate(t, Concat(init), r);
  }

  lemma ConcatNothing(t: Text)
    ensures SpaceRunes([]) && Concat([]) + t == t && t + Concat([]) == t
  {
  }

  lemma {:induction false} TrimRightWitness(s: Text) returns (rs: seq<Text>)
    ensures SpaceRunes(rs) && s == TrimRight(s) + Concat(rs)
    decreases |s|
  {
    hide *;
    ConcatNothing(TrimRight(s));
    TrimRightStep(s);
    var n := EndSpaceWidth(s);
    if n == 0 {
      rs := [];
    } else {
      var rest := s[..|s| - n];
      var r := EndSpaceIsRune(s);
      var init := TrimRightWitness(rest);
      AppendRuneTo(s, rest, TrimRight(s), init, r);
      rs := init + [r];
    }
  }

  lemma MarkWordsDoNotTrim(word: Text, post: Text)
    requires word == BEGIN_MARK || word == COMMIT_MARK
    ensures TrimLeft(word + post) == word + post && TrimRight(word) == word
  {
    assert (word + post)[0] == word[0];
    assert EndSpaceWidth(word) == 0;
  }

  lemma SurroundedIsMarker(line: Text, pre: seq<Text>, word: Text, post: seq<Text>)
    requires Surrounded(line, pre, word, post)
    ensures IsMarker(line)
  {
    var core := word + Concat(post);
    assert line == Concat(pre) + core;
    TrimLeftDropsRunes(pre, core);
    MarkWordsDoNotTrim(word, Concat(post));
    TrimRightDropsRunes(word, post);
  }

  /** A marker line is one of the two words with nothing but white space around it. */
  lemma MarkerIff(line: Text)
    ensures IsMarker(line) <==> exists pre, word, post :: Surrounded(line, pre, word, post)
  {
    if IsMarker(line) {
      var core := TrimLeft(line);
      var word := TrimRight(core);
      var pre := TrimLeftWitness(line);
      var post := TrimRightWitness(core);
      assert line == Concat(pre) + word + Concat(post);
      assert Surrounded(line, pre, word, post);
    }
    if pre, word, post :| Surrounded(line, pre, word, post) {
      SurroundedIsMarker(line, pre, word, post);
    }
  }

  ghost predicate Surrounded(line: Text, pre: seq<Text>, word: Text, post: seq<Text>) {
    && SpaceRunes(pre) && SpaceRunes(post)
    && (word == BEGIN_MARK || word == COMMIT_MARK)
    && line == Concat(pre) + word + Concat(post)
  }

  // ---- Markers hold no quotes ----

  ghost predicate NoDollarBut(s: Text, t: Text) {
    DOLLAR in s ==> DOLLAR in t
  }

  lemma SpaceRuneHasNoDollar(r: Text)
    requires SpaceRune(r)
    ensures DOLLAR !in r
  {
  }

  lemma {:induction false} TrimLeftKeepsDollars(s: Text)
    ensures NoDollarBut(s, TrimLeft(s))
    decreases |s|
  {
    var n := SpaceWidth(s);
    if n > 0 {
      var r, rest := s[..n], s[n..];
      TrimLeftKeepsDollars(rest);
      assert s == r + rest;
      FrontSpaceIsRune(s);
      SpaceRuneHasNoDollar(r);
    }
  }

  lemma {:induction false} TrimRightKeepsDollars(s: Text)
    ensures NoDollarBut(s, TrimRight(s))
    decreases |s|
  {
    var n := EndSpaceWidth(s);
    if n > 0 {
      var rest := s[..|s| - n];
      TrimRightKeepsDollars(rest);
      var r := EndSpaceIsRune(s);
      SpaceRuneHasNoDollar(r);
    }
  }

  lemma MarkerHasNoDollar(line: Text)
    requires IsMarker(line)
    ensures DOLLAR !in line && line != []
  {
    TrimLeftKeepsDollars(line);
    TrimRightKeepsDollars(TrimLeft(line));
  }

  lemma {:induction false} ScanWithoutDollars(line: Text, i: nat, q: Quote)
    requires DOLLAR !in line && i <= |line|
    ensures Scan(line, i, |line|, q) == q
    decreases |line| - i
  {
    if i < |line| {
      assert line[i] in line;
      ScanWithoutDollars(line, i + 1, q);
    }
  }

  // ---- What stripping does ----

  /** Line `k` may be replaced by `line` without disturbing the tracker. */
  ghost predicate ScansAlike(lines: seq<Text>, k: nat, line: Text)
    requires k < |lines|
  {
    Scan(line, 0, |line|, LineState(lines, k)) == Scan(lines[k], 0, |lines[k]|, LineState(lines, k))
  }

  lemma KeptLineScansAlike(lines: seq<Text>, k: nat)
    requires k < |lines|
    ensures ScansAlike(lines, k, Kept(lines, k))
  {
    if Kept(lines, k) != lines[k] {
      MarkerHasNoDollar(lines[k]);
      ScanWithoutDollars(lines[k], 0, Outside);
    }
  }

  lemma {:induction false} ReplacedLinesKeepStates(lines: seq<Text>, other: seq<Text>, k: nat)
    requires k <= |lines| <= |other|
    requires forall j {:trigger ScansAlike(lines, j, other[j])} :: 0 <= j < |lines| ==> ScansAlike(lines, j, other[j])
    ensures LineState(other, k) == LineState(lines, k)
  {
    if k > 0 {
      ReplacedLinesKeepStates(lines, other, k - 1);
      assert ScansAlike(lines, k - 1, other[k - 1]);
    }
  }

  lemma StrippingKeepsStates(lines: seq<Text>, k: nat)
    requires k <= |lines|
    ensures LineState(KeptLines(lines) + [[]], k) == LineState(lines, k)
  {
    var other := KeptLines(lines) + [[]];
    forall j | 0 <= j < |lines|
      ensures ScansAlike(lines, j, other[j])
    {
      KeptLineScansAlike(lines, j);
      assert other[j] == Kept(lines, j);
    }
    ReplacedLinesKeepStates(lines, other, k);
  }

  lemma StrippedLines(s: Text)
    ensures Split(Stripped(s)) == KeptLines(Split(s)) + [[]]
  {
    SplitHasNoNewlines(s);
    SplitUnlines(KeptLines(Split(s)));
  }

  /**
   Line `k` of the result is line `k` of the input unless that is a marker outside every
   quote, in which case it is empty; one empty line is added at the end.  The quote state
   at the start of every line is that of the input.
   */
  lemma StripBlanksExactlyTopLevelMarkers(s: Text, k: nat)
    requires k < |Split(s)|
    ensures |Split(Stripped(s))| == |Split(s)| + 1 && Split(Stripped(s))[|Split(s)|] == []
    ensures Offset(Split(s), k) <= |s| && Offset(Split(Stripped(s)), k) <= |Stripped(s)|
    ensures StateAt(Stripped(s), Offset(Split(Stripped(s)), k)) == StateAt(s, Offset(Split(s), k))
    ensures StateAt(s, Offset(Split(s), k)).Inside? ==> Split(Stripped(s))[k] == Split(s)[k]
    ensures Split(Stripped(s))[k] != Split(s)[k] <==>
      StateAt(s, Offset(Split(s), k)) == Outside && IsMarker(Split(s)[k])
    ensures Split(Stripped(s))[k] != Split(s)[k] ==> Split(Stripped(s))[k] == []
  {
    StrippedLines(s);
    TrackerIsOneScan(s, k);
    TrackerIsOneScan(Stripped(s), k);
    StrippingKeepsStates(Split(s), k);
    if IsMarker(Split(s)[k]) {
      MarkerHasNoDollar(Split(s)[k]);
    }
  }

  lemma KeptAgain(lines: seq<Text>)
    ensures KeptLines(KeptLines(lines) + [[]]) == KeptLines(lines) + [[]]
  {
    var twice := KeptLines(lines) + [[]];
    forall k | 0 <= k < |twice|
      ensures Kept(twice, k) == twice[k]
    {
      if IsMarker(twice[k]) {
        MarkerHasNoDollar(twice[k]);
        StrippingKeepsStates(lines, k);
      }
    }
  }

  /** A second pass adds one newline and changes nothing else. */
  lemma SecondPassOnlyAddsNewline(s: Text)
    ensures Stripped(Stripped(s)) == Stripped(s) + [NL]
  {
    StrippedLines(s);
    KeptAgain(Split(s));
    UnlinesAppend(KeptLines(Split(s)), []);
  }

  /** A text comes through with nothing but the final newline added iff it has no marker at top level. */
  lemma UntouchedIff(s: Text)
    ensures Stripped(s) == s + [NL] <==>
      forall k :: 0 <= k < |Split(s)| ==> !(LineState(Split(s), k) == Outside && IsMarker(Split(s)[k]))
  {
    var lines := Split(s);
    UnlinesSplit(s);
    StrippedLines(s);
    SplitHasNoNewlines(s);
    SplitUnlines(lines);
    if forall k :: 0 <= k < |lines| ==> !(LineState(lines, k) == Outside && IsMarker(lines[k])) {
      assert KeptLines(lines) == lines;
    }
    if Stripped(s) == s + [NL] {
      forall k | 0 <= k < |lines|
        ensures !(LineState(lines, k) == Outside && IsMarker(lines[k]))
      {
        assert Kept(lines, k) == (lines + [[]])[k];
        if IsMarker(lines[k]) {
          MarkerHasNoDollar(lines[k]);
        }
      }
    }
  }
}
