/**
 The tracker's quotes beside those of Postgres.

 Both leave a quote at a token equal to the one that opened it.  After an unequal token Postgres
 scans again from the token's last `$`, which may begin the closing one; the tracker goes on behind it.
 */
module DollarQuotes {
  import opened Common
  import opened StripTx

  /** A `$tag$` token by itself. */
  predicate IsToken(tag: Text) {
    && |tag| >= 2 && tag[0] == DOLLAR && tag[|tag| - 1] == DOLLAR
    && forall k :: 0 < k < |tag| - 1 ==> IsDollarTagChar(tag[k])
  }

  /** The token at `i`, if there is one, is `tag`. */
  predicate Closes(s: Text, i: nat, tag: Text)
    requires i < |s|
  {
    TokenLength(s, i) > 0 && s[i..i + TokenLength(s, i)] == tag
  }

  /** Where the tracker is behind a quote that it entered at `i`. */
  function TrackerClose(s: Text, i: nat, tag: Text): (r: Option<nat>)
    requires i <= |s|
    ensures r.Some? ==> i < r.value <= |s|
    decreases |s| - i
  {
    if i == |s| then None
    else if Closes(s, i, tag) then Some(i + TokenLength(s, i))
    else TrackerClose(s, i + Advance(s, i), tag)
  }

  /** How far Postgres moves inside a quote: it puts the last `$` of an unequal token back. */
  function PostgresAdvance(s: Text, i: nat): (n: nat)
    requires i < |s|
    ensures 1 <= n <= |s| - i
  {
    if TokenLength(s, i) == 0 then 1 else TokenLength(s, i) - 1
  }

  function PostgresClose(s: Text, i: nat, tag: Text): Option<nat>
    requires i <= |s|
    decreases |s| - i
  {
    if i == |s| then None
    else if Closes(s, i, tag) then Some(i + TokenLength(s, i))
    else PostgresClose(s, i + PostgresAdvance(s, i), tag)
  }

  /** `tag` stands in the text at `p`. */
  predicate Occurs(s: Text, tag: Text, p: nat) {
    p + |tag| <= |s| && s[p..p + |tag|] == tag
  }

  // ---- Tokens ----

  /** Between the two `$` of a token there are only tag characters. */
  lemma {:induction false} TagEndSpan(s: Text, j: nat)
    requires j <= |s|
    ensures forall k :: j <= k < TagEnd(s, j) ==> IsDollarTagChar(s[k])
    ensures TagEnd(s, j) < |s| ==> !IsDollarTagChar(s[TagEnd(s, j)])
    decreases |s| - j
  {
    if j < |s| && IsDollarTagChar(s[j]) {
      TagEndSpan(s, j + 1);
    }
  }

  lemma TokenSpan(s: Text, i: nat)
    requires i < |s| && TokenLength(s, i) > 0
    ensures s[i] == DOLLAR && s[i + TokenLength(s, i) - 1] == DOLLAR
    ensures forall k :: i < k < i + TokenLength(s, i) - 1 ==> IsDollarTagChar(s[k])
  {
    TagEndSpan(s, i + 1);
  }

  lemma {:induction false} TagEndIs(s: Text, j: nat, e: nat)
    requires j <= e < |s| && s[e] == DOLLAR
    requires forall k :: j <= k < e ==> IsDollarTagChar(s[k])
    ensures TagEnd(s, j) == e
    decreases e - j
  {
    if j < e {
      TagEndIs(s, j + 1, e);
    }
  }

  lemma TokenIs(s: Text, i: nat, e: nat)
    requires i < e < |s| && s[i] == DOLLAR && s[e] == DOLLAR
    requires forall k :: i < k < e ==> IsDollarTagChar(s[k])
    ensures TokenLength(s, i) == e + 1 - i
  {
    TagEndIs(s, i + 1, e);
  }

  /** A quote closes at a position exactly if its tag stands there. */
  lemma ClosesIffOccurs(s: Text, i: nat, tag: Text)
    requires i < |s| && IsToken(tag)
    ensures Closes(s, i, tag) <==> Occurs(s, tag, i)
    ensures Closes(s, i, tag) ==> TokenLength(s, i) == |tag|
  {
    if Occurs(s, tag, i) {
      var e := i + |tag| - 1;
      forall k | i <= k <= e
        ensures s[k] == tag[k - i]
      {
        assert s[i..i + |tag|][k - i] == s[k];
      }
      TokenIs(s, i, e);
    }
  }

  /** A tag cannot stand strictly inside a token. */
  lemma NoneInside(s: Text, i: nat, tag: Text, p: nat)
    requires i < |s| && TokenLength(s, i) > 0 && IsToken(tag)
    requires i < p < i + TokenLength(s, i) - 1
    ensures !Occurs(s, tag, p)
  {
    TokenSpan(s, i);
    OccursAtDollar(s, tag, p);
  }

  lemma OccursAtDollar(s: Text, tag: Text, p: nat)
    requires p < |s| && IsToken(tag) && s[p] != DOLLAR
    ensures !Occurs(s, tag, p)
  {
    if p + |tag| <= |s| {
      assert s[p..p + |tag|][0] == s[p];
    }
  }

  // ---- Postgres closes at the first occurrence ----

  /** The first place from `i` on where the tag stands. */
  ghost predicate FirstOccurrence(s: Text, i: nat, tag: Text, p: nat) {
    i <= p && Occurs(s, tag, p) && forall k: nat :: i <= k < p ==> !Occurs(s, tag, k)
  }

  lemma {:induction false} PostgresClosesAtFirst(s: Text, i: nat, tag: Text)
    requires i <= |s| && IsToken(tag)
    ensures match PostgresClose(s, i, tag)
      case Some(q) => q >= |tag| && FirstOccurrence(s, i, tag, q - |tag|)
      case None => forall k: nat :: i <= k ==> !Occurs(s, tag, k)
    decreases |s| - i
  {
    hide Occurs, Closes, TokenLength, IsToken;
    if i < |s| {
      ClosesIffOccurs(s, i, tag);
      if !Closes(s, i, tag) {
        var next := i + PostgresAdvance(s, i);
        PostgresClosesAtFirst(s, next, tag);
        forall k: nat | i <= k < next
          ensures !Occurs(s, tag, k)
        {
          if k > i {
            NoneInside(s, i, tag, k);
          }
        }
      }
    } else {
      NothingBehind(s, i, tag);
    }
  }

  lemma NothingBehind(s: Text, i: nat, tag: Text)
    requires i == |s| && IsToken(tag)
    ensures forall k: nat :: i <= k ==> !Occurs(s, tag, k)
  {
  }

  // ---- What the tracker visits ----

  /** Scanning from `i` the tracker looks at position `p`. */
  predicate Visits(s: Text, i: nat, p: nat)
    requires p <= |s|
    decreases |s| - i
  {
    i == p || (i < p && Visits(s, i + Advance(s, i), p))
  }

  /** The tracker closes at the first place with the tag that it visits. */
  lemma {:induction false} TrackerClosesAtVisited(s: Text, i: nat, tag: Text, p: nat)
    requires i <= |s| && IsToken(tag) && FirstOccurrence(s, i, tag, p)
    ensures TrackerClose(s, i, tag) == Some(p + |tag|) <==> Visits(s, i, p)
    decreases |s| - i
  {
    hide Occurs, Closes, TokenLength, IsToken;
    OccursBefore(s, tag, p);
    ClosesIffOccurs(s, i, tag);
    if i < p {
      var next := i + Advance(s, i);
      if next <= p {
        TrackerClosesAtVisited(s, next, tag, p);
      } else {
        LaterClose(s, next, tag);
      }
    }
  }

  lemma OccursBefore(s: Text, tag: Text, p: nat)
    requires Occurs(s, tag, p) && IsToken(tag)
    ensures p < |s| && s[p] == DOLLAR
  {
    assert s[p..p + |tag|][0] == s[p];
  }

  lemma {:induction false} LaterClose(s: Text, i: nat, tag: Text)
    requires i <= |s| && IsToken(tag)
    ensures TrackerClose(s, i, tag).Some? ==> TrackerClose(s, i, tag).value >= i + |tag|
    decreases |s| - i
  {
    hide Occurs, Closes, TokenLength, IsToken;
    if i < |s| {
      ClosesIffOccurs(s, i, tag);
      if !Closes(s, i, tag) {
        LaterClose(s, i + Advance(s, i), tag);
      }
    }
  }

  // ---- Chains of tokens that share their dollar signs ----

  /** A token from `j` ends with the `$` at `p`. */
  predicate EndsAt(s: Text, j: nat, p: nat)
    requires p < |s|
  {
    j < p && TokenLength(s, j) == p + 1 - j
  }

  ghost predicate Chained(s: Text, i: nat, p: nat)
    requires p < |s|
  {
    exists j: nat :: i <= j && EndsAt(s, j, p)
  }

  /** How many tokens, each beginning with the last `$` of the one before, lead from `i` or later to `p`. */
  ghost function Chain(s: Text, i: nat, p: nat): nat
    requires p < |s|
    decreases p
  {
    if Chained(s, i, p) then
      var j: nat :| i <= j && EndsAt(s, j, p);
      1 + Chain(s, i, j)
    else 0
  }

  /** Only one token ends at a place. */
  lemma OneEndsAt(s: Text, j: nat, k: nat, p: nat)
    requires p < |s| && EndsAt(s, j, p) && EndsAt(s, k, p)
    ensures j == k
  {
    TokenSpan(s, j);
    TokenSpan(s, k);
  }

  lemma ChainStep(s: Text, i: nat, j: nat, p: nat)
    requires p < |s| && i <= j && EndsAt(s, j, p)
    ensures Chain(s, i, p) == 1 + Chain(s, i, j)
  {
    assert Chained(s, i, p);
    var k: nat :| i <= k && EndsAt(s, k, p) && Chain(s, i, p) == 1 + Chain(s, i, k);
    OneEndsAt(s, j, k, p);
  }

  /** A place where no token begins can be left out of the count. */
  lemma {:induction false} ChainFromNext(s: Text, i: nat, p: nat)
    requires i < p < |s| && TokenLength(s, i) == 0
    ensures Chain(s, i, p) == Chain(s, i + 1, p)
    decreases p
  {
    hide TokenLength;
    if j: nat :| i <= j && EndsAt(s, j, p) {
      assert j != i;
      ChainStep(s, i, j, p);
      ChainStep(s, i + 1, j, p);
      if j > i + 1 {
        ChainFromNext(s, i, j);
      } else {
        NoChainTo(s, i + 1);
        ChainFromNextAt(s, i);
      }
    } else {
      assert !Chained(s, i + 1, p);
    }
  }

  lemma NoChainTo(s: Text, p: nat)
    requires p < |s|
    ensures Chain(s, p, p) == 0
  {
  }

  lemma ChainFromNextAt(s: Text, i: nat)
    requires i + 1 < |s| && TokenLength(s, i) == 0
    ensures Chain(s, i, i + 1) == 0
  {
    var p := i + 1;
    assert forall j: nat :: i <= j ==> !EndsAt(s, j, p);
    assert !Chained(s, i, p);
  }

  /** The token that the tracker steps over counts for nothing, or for two together with the one behind it. */
  lemma {:induction false} ChainBehindToken(s: Text, i: nat, e: nat, p: nat)
    requires e < p < |s| && EndsAt(s, i, e)
    ensures Chain(s, i, p) == Chain(s, e + 1, p) || Chain(s, i, p) == Chain(s, e + 1, p) + 2
    decreases p
  {
    hide TokenLength;
    if j: nat :| i <= j && EndsAt(s, j, p) {
      NotAcross(s, i, e, j, p);
      ChainStep(s, i, j, p);
      if j == e {
        ChainStep(s, i, i, e);
        NoChainTo(s, i);
        assert !Chained(s, e + 1, p) by {
          if Chained(s, e + 1, p) {
            var k: nat :| e + 1 <= k && EndsAt(s, k, p);
            OneEndsAt(s, j, k, p);
          }
        }
      } else {
        ChainStep(s, e + 1, j, p);
        ChainBehindToken(s, i, e, j);
      }
    } else {
      assert !Chained(s, e + 1, p);
    }
  }

  /** No token reaches across the `$` that ends another. */
  lemma NotAcross(s: Text, i: nat, e: nat, j: nat, p: nat)
    requires e < p < |s| && i <= j && EndsAt(s, i, e) && EndsAt(s, j, p)
    ensures j >= e
  {
    TokenSpan(s, i);
    TokenSpan(s, j);
  }

  /** The tracker visits a `$` exactly if an even number of tokens is chained up to it. */
  lemma {:induction false} VisitsIffEven(s: Text, i: nat, p: nat)
    requires i <= p < |s| && s[p] == DOLLAR
    ensures Visits(s, i, p) <==> Chain(s, i, p) % 2 == 0
    decreases p - i
  {
    hide TokenLength, Chain;
    if i == p {
      NoChainTo(s, p);
    } else if TokenLength(s, i) == 0 {
      VisitsIffEven(s, i + 1, p);
      ChainFromNext(s, i, p);
    } else {
      var e := i + TokenLength(s, i) - 1;
      TokenSpan(s, i);
      assert EndsAt(s, i, e);
      if p > e {
        VisitsIffEven(s, e + 1, p);
        ChainBehindToken(s, i, e, p);
      } else {
        assert p == e;
        ChainStep(s, i, i, e);
        NoChainTo(s, i);
      }
    }
  }

  /**
   The tracker leaves a quote where Postgres does exactly when the closing token is not swallowed: when
   an even number of unequal tokens, sharing their dollar signs, is chained up to it.
   */
  lemma ClosesLikePostgresIff(s: Text, i: nat, tag: Text)
    requires i <= |s| && IsToken(tag)
    ensures PostgresClose(s, i, tag).None? ==> TrackerClose(s, i, tag).None?
    ensures PostgresClose(s, i, tag).Some? ==>
      var p := PostgresClose(s, i, tag).value - |tag|;
      0 <= p < |s| && (TrackerClose(s, i, tag) == PostgresClose(s, i, tag) <==> Chain(s, i, p) % 2 == 0)
  {
    hide TrackerClose, PostgresClose, Chain, Visits, Occurs, IsToken;
    PostgresClosesAtFirst(s, i, tag);
    match PostgresClose(s, i, tag)
    case Some(q) =>
      OccursBefore(s, tag, q - |tag|);
      TrackerClosesAtVisited(s, i, tag, q - |tag|);
      VisitsIffEven(s, i, q - |tag|);
    case None =>
      NeverCloses(s, i, tag);
  }

  lemma {:induction false} NeverCloses(s: Text, i: nat, tag: Text)
    requires i <= |s| && IsToken(tag) && forall k: nat :: i <= k ==> !Occurs(s, tag, k)
    ensures TrackerClose(s, i, tag) == None
    decreases |s| - i
  {
    hide Occurs, Closes, TokenLength, IsToken;
    if i < |s| {
      ClosesIffOccurs(s, i, tag);
      NeverCloses(s, i + Advance(s, i), tag);
    }
  }

  /** The scan from inside a quote is the scan from outside behind its close. */
  lemma {:induction false} ScanBehindClose(s: Text, i: nat, stop: nat, tag: Text)
    requires i <= |s| && stop <= |s|
    ensures match TrackerClose(s, i, tag)
      case Some(q) => q <= stop ==> Scan(s, i, stop, Inside(tag)) == Scan(s, q, stop, Outside)
      case None => Scan(s, i, stop, Inside(tag)) == Inside(tag)
    decreases |s| - i
  {
    hide TokenLength;
    if i < |s| && !Closes(s, i, tag) {
      ScanBehindClose(s, i + Advance(s, i), stop, tag);
    }
  }

  // ---- When a text is inside a quote ----

  /** No token begins from `j` up to `p`. */
  ghost predicate NoTokenFrom(s: Text, j: nat, p: nat)
    requires p <= |s|
  {
    forall k: nat :: j <= k < p ==> TokenLength(s, k) == 0
  }

  /** First place from `j` on where a token begins; the end of the text if there is none. */
  function NextToken(s: Text, j: nat): (i: nat)
    requires j <= |s|
    ensures j <= i <= |s| && (i < |s| ==> TokenLength(s, i) > 0)
    ensures NoTokenFrom(s, j, i)
    decreases |s| - j
  {
    if j == |s| || TokenLength(s, j) > 0 then j else NextToken(s, j + 1)
  }

  /**
   The quote at `p` of a text that is outside at `j`: the next token opens one, which lasts up to the
   place where it closes.
   */
  function QuoteState(s: Text, j: nat, p: nat): Quote
    requires j <= |s| && p <= |s|
    decreases |s| - j
  {
    var i := NextToken(s, j);
    if i >= p then Outside
    else
      var tag := s[i..i + TokenLength(s, i)];
      match TrackerClose(s, i + TokenLength(s, i), tag)
      case None => Inside(tag)
      case Some(q) => if p + |tag| <= q then Inside(tag) else QuoteState(s, q, p)
  }

  lemma {:induction false} ScanToToken(s: Text, j: nat, p: nat)
    requires j <= |s| && p <= |s|
    ensures Scan(s, j, p, Outside) ==
      if NextToken(s, j) >= p then Outside else Scan(s, NextToken(s, j), p, Outside)
    decreases |s| - j
  {
    hide TokenLength;
    if j < p && TokenLength(s, j) == 0 {
      ScanToToken(s, j + 1, p);
    }
  }

  lemma OpensAtToken(s: Text, i: nat, p: nat)
    requires i < p <= |s| && TokenLength(s, i) > 0
    ensures Scan(s, i, p, Outside) == Scan(s, i + TokenLength(s, i), p, Inside(s[i..i + TokenLength(s, i)]))
  {
  }

  /** Inside a quote the scan stays there up to the closing token and is outside behind it. */
  lemma {:induction false} ScanInside(s: Text, i: nat, p: nat, tag: Text)
    requires i <= |s| && p <= |s| && IsToken(tag)
    ensures Scan(s, i, p, Inside(tag)) == match TrackerClose(s, i, tag)
      case None => Inside(tag)
      case Some(q) => if p + |tag| <= q then Inside(tag) else Scan(s, q, p, Outside)
    decreases |s| - i
  {
    hide TokenLength, IsToken;
    LaterClose(s, i, tag);
    if i < |s| {
      ClosesIffOccurs(s, i, tag);
      if !Closes(s, i, tag) {
        ScanInside(s, i + Advance(s, i), p, tag);
      }
    }
  }

  lemma TokensAreTags(s: Text, i: nat)
    requires i < |s| && TokenLength(s, i) > 0
    ensures IsToken(s[i..i + TokenLength(s, i)])
  {
    TokenSpan(s, i);
  }

  /** The scan of a text is inside exactly the quotes that its tokens open and close in turn. */
  lemma {:induction false} StateIsQuote(s: Text, j: nat, p: nat)
    requires j <= |s| && p <= |s|
    ensures Scan(s, j, p, Outside) == QuoteState(s, j, p)
    decreases |s| - j
  {
    hide TokenLength, IsToken, Scan;
    ScanToToken(s, j, p);
    var i := NextToken(s, j);
    if i < p {
      OpensAtToken(s, i, p);
      TokensAreTags(s, i);
      var b := i + TokenLength(s, i);
      ScanInside(s, b, p, s[i..b]);
      match TrackerClose(s, b, s[i..b])
      case None =>
      case Some(q) => StateIsQuote(s, q, p);
    }
  }

  lemma TokenBars(s: Text, j: nat, k: nat, p: nat)
    requires j <= k < |s| && p <= |s| && TokenLength(s, k) > 0
    ensures NoTokenFrom(s, j, p) ==> p <= k
  {
  }

  lemma FirstTokenIsNext(s: Text, j: nat, i: nat)
    requires j <= i <= |s| && NoTokenFrom(s, j, i) && (i < |s| ==> TokenLength(s, i) > 0)
    ensures NextToken(s, j) == i
  {
    hide TokenLength, NextToken, NoTokenFrom;
    if NextToken(s, j) < |s| {
      TokenBars(s, j, NextToken(s, j), i);
    }
    if i < |s| {
      TokenBars(s, j, i, NextToken(s, j));
    }
  }

  /** Before the first token the text is outside every quote. */
  lemma OutsideBeforeTokens(s: Text, p: nat)
    requires p <= |s| && NoTokenFrom(s, 0, p)
    ensures StateAt(s, p) == Outside
  {
    hide TokenLength, Scan, NextToken, NoTokenFrom;
    StateIsQuote(s, 0, p);
    if NextToken(s, 0) < |s| {
      TokenBars(s, 0, NextToken(s, 0), p);
    }
  }

  /** A place behind the opening token and not behind the beginning of its closing one. */
  predicate Between(s: Text, i: nat, p: nat)
    requires i < |s| && TokenLength(s, i) > 0
  {
    var b := i + TokenLength(s, i);
    var close := TrackerClose(s, b, s[i..b]);
    b <= p && (close.Some? ==> p + TokenLength(s, i) <= close.value)
  }

  /** The first token opens a quote, which lasts up to the first place behind it where the same token is met. */
  lemma InsideFirstQuote(s: Text, i: nat, p: nat)
    requires i < |s| && NoTokenFrom(s, 0, i) && TokenLength(s, i) > 0
    requires p <= |s| && Between(s, i, p)
    ensures StateAt(s, p) == Inside(s[i..i + TokenLength(s, i)])
  {
    hide TokenLength, Scan;
    StateIsQuote(s, 0, p);
    FirstTokenIsNext(s, 0, i);
  }

  /** A line that begins inside the first quote comes through, marker or not. */
  lemma QuotedLineIsKept(s: Text, i: nat, k: nat)
    requires i < |s| && NoTokenFrom(s, 0, i) && TokenLength(s, i) > 0
    requires k < |Split(s)| && Offset(Split(s), k) <= |s| && Between(s, i, Offset(Split(s), k))
    ensures k < |Split(Stripped(s))| && Split(Stripped(s))[k] == Split(s)[k]
  {
    hide Between, Stripped, Split;
    InsideFirstQuote(s, i, Offset(Split(s), k));
    StripBlanksExactlyTopLevelMarkers(s, k);
  }

  /** A marker before the first token is blanked. */
  lemma UnquotedMarkerIsBlanked(s: Text, k: nat)
    requires k < |Split(s)| && Offset(Split(s), k) <= |s| && NoTokenFrom(s, 0, Offset(Split(s), k))
    requires IsMarker(Split(s)[k])
    ensures k < |Split(Stripped(s))| && Split(Stripped(s))[k] == []
  {
    hide Stripped, Split, IsMarker;
    OutsideBeforeTokens(s, Offset(Split(s), k));
    StripBlanksExactlyTopLevelMarkers(s, k);
  }

  /** Any line is kept or blanked by the quotes that the tokens before it open and close. */
  lemma LineIsBlankedIff(s: Text, k: nat)
    requires k < |Split(s)|
    ensures Offset(Split(s), k) <= |s| && k < |Split(Stripped(s))|
    ensures Split(Stripped(s))[k] ==
      if QuoteState(s, 0, Offset(Split(s), k)) == Outside && IsMarker(Split(s)[k]) then [] else Split(s)[k]
  {
    hide Stripped, Split, IsMarker, Scan;
    StripBlanksExactlyTopLevelMarkers(s, k);
    StateIsQuote(s, 0, Offset(Split(s), k));
  }

  // ---- Whole texts ----

  /** The scan of Postgres, which differs inside quotes only. */
  function PostgresScan(s: Text, i: nat, stop: nat, q: Quote): Quote
    requires stop <= |s|
    decreases |s| - i
  {
    if i >= stop then q
    else if q.Inside? && !Closes(s, i, q.tag) then PostgresScan(s, i + PostgresAdvance(s, i), stop, q)
    else PostgresScan(s, i + Advance(s, i), stop, After(s, i, q))
  }

  /** No `$` both ends a token and begins another. */
  ghost predicate NoSharedDollar(s: Text) {
    forall i: nat :: i < |s| && TokenLength(s, i) > 0 ==> TokenLength(s, i + TokenLength(s, i) - 1) == 0
  }

  /** In texts without shared dollar signs the tracker and Postgres are in one state everywhere. */
  lemma {:induction false} AgreeWithoutSharedDollar(s: Text, i: nat, stop: nat, q: Quote)
    requires stop <= |s| && NoSharedDollar(s)
    ensures Scan(s, i, stop, q) == PostgresScan(s, i, stop, q)
    decreases |s| - i
  {
    if i < stop {
      AgreeWithoutSharedDollar(s, i + Advance(s, i), stop, After(s, i, q));
      var n := TokenLength(s, i);
      if q.Inside? && !Closes(s, i, q.tag) && n > 0 {
        assert After(s, i, q) == q && TokenLength(s, i + n - 1) == 0;
        LastDollar(s, i + n - 1, stop, q);
      }
    }
  }

  /** A `$` that begins no token is stepped over. */
  lemma LastDollar(s: Text, e: nat, stop: nat, q: Quote)
    requires stop <= |s| && e < |s| && TokenLength(s, e) == 0 && q.Inside?
    ensures PostgresScan(s, e, stop, q) == PostgresScan(s, e + 1, stop, q)
  {
  }

  /**
   Behind any other token that lends it its first `$` the closing token is swallowed: Postgres is outside
   at the end of `$x$d$`, the tracker still inside `$d$`.
   */
  lemma SwallowedClose(d: Text, x: Text)
    requires IsToken(d) && IsToken(x) && d != x
    ensures var s := x[..|x| - 1] + d;
      PostgresClose(s, 0, d) == Some(|s|) && TrackerClose(s, 0, d) == None
  {
    hide TokenLength, TagEnd;
    var s, e := x[..|x| - 1] + d, |x| - 1;
    assert forall k :: 0 <= k < e ==> s[k] == x[k];
    TokenIs(s, 0, e);
    assert s[0..|x|] == x && s[e..|s|] == d;
    ClosesIffOccurs(s, e, d);
    assert PostgresClose(s, 0, d) == PostgresClose(s, e, d);
    NeverCloses(s, |x|, d);
    assert TrackerClose(s, 0, d) == TrackerClose(s, |x|, d);
  }
}
