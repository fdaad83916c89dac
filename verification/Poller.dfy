/**
 The baseline poller: every interval it asks each active tenant's graph for recently
 committed snapshots and pushes them to the dispatch channel.
 */
module Poller {
  import opened Common
  import opened Timestamps

  const INTERVAL: nat := 30 * NANOS
  const LOOKBACK: nat := 60 * NANOS
  const MAX_PER_TENANT: nat := 100

  type Tenant = string
  type Location = string

  const MILLI: nat := 1_000_000

  /** Commit times come from the catalog in whole milliseconds. */
  type CommitTime = t: Instant | t % 1_000_000 == 0 witness 0

  /** A Snapshot vertex; one that was never ingested has no commit time. */
  datatype Snapshot = Snapshot(location: Location, committedAt: Option<CommitTime>)

  type PollTime = t: Instant | t >= LOOKBACK witness LOOKBACK

  // ---- The query ----

  /** The text that bounds the query of a poll at `now`. */
  function Since(now: PollTime): string {
    Rfc3339Nano(now - LOOKBACK)
  }

  /** The comparison of the query, on text. */
  predicate Matches(s: Snapshot, since: string) {
    s.committedAt.Some? && LexLess(since, Rfc3339Nano(s.committedAt.value))
  }

  function MatchSet(graph: set<Snapshot>, since: string): set<Snapshot> {
    set s | s in graph && Matches(s, since)
  }

  /** Rows of the query: distinct matches, as many as the limit allows. */
  ghost predicate IsAnswer(graph: set<Snapshot>, since: string, rows: seq<Snapshot>) {
    && (forall i, j :: 0 <= i < j < |rows| ==> rows[i] != rows[j])
    && (forall s :: s in rows ==> s in MatchSet(graph, since))
    && |rows| <= MAX_PER_TENANT
    && (|MatchSet(graph, since)| <= MAX_PER_TENANT ==> forall s :: s in MatchSet(graph, since) ==> s in rows)
  }

  // ---- One poll ----

  /** Hits of one tenant; rows without a location are skipped. */
  function HitsOf(tenant: Tenant, rows: seq<Location>): seq<Hit> {
    if rows == [] then []
    else if rows[|rows| - 1] == "" then HitsOf(tenant, rows[..|rows| - 1])
    else HitsOf(tenant, rows[..|rows| - 1]) + [Hit(tenant, rows[|rows| - 1], "poller", "")]
  }

  /** Everything a poll would push if it is not cancelled; a failing tenant is skipped. */
  function AllHits(tenants: seq<Tenant>, query: Tenant -> Reply<seq<Location>>): seq<Hit> {
    if tenants == [] then []
    else
      var last := tenants[|tenants| - 1];
      AllHits(tenants[..|tenants| - 1], query) +
      if query(last).Answer? then HitsOf(last, query(last).value) else []
  }

  /** A hit for every row, in the order of the rows. */
  predicate AllInOrder(tenant: Tenant, rows: seq<Location>, hits: seq<Hit>) {
    |hits| == |rows| && forall i :: 0 <= i < |rows| ==> hits[i] == Hit(tenant, rows[i], "poller", "")
  }

  /** One kind of hit, for exactly the rows that name a location. */
  ghost predicate AllNamed(tenant: Tenant, rows: seq<Location>, hits: seq<Hit>) {
    forall h :: h in hits <==> h.location in rows && h.location != "" && h == Hit(tenant, h.location, "poller", "")
  }

  lemma {:induction false} HitsInOrder(tenant: Tenant, rows: seq<Location>)
    requires "" !in rows
    ensures AllInOrder(tenant, rows, HitsOf(tenant, rows))
  {
    if rows != [] {
      HitsInOrder(tenant, rows[..|rows| - 1]);
    }
  }

  /** What is pushed for a tenant is one kind of hit for its non-empty rows. */
  lemma {:induction false} HitsAre(tenant: Tenant, rows: seq<Location>, h: Hit)
    ensures h in HitsOf(tenant, rows) <==>
      h.location in rows && h.location != "" && h == Hit(tenant, h.location, "poller", "")
  {
    if rows != [] {
      HitsAre(tenant, rows[..|rows| - 1], h);
      assert rows == rows[..|rows| - 1] + [rows[|rows| - 1]];
    }
  }

  method FreshSnapshots(tenant: Tenant, rows: Reply<seq<Location>>) returns (r: Reply<seq<Hit>>)
    ensures rows.Failed? ==> r == Failed
    ensures rows.Answer? ==> r == Answer(HitsOf(tenant, rows.value))
    ensures rows.Answer? ==> AllNamed(tenant, rows.value, r.value)
    ensures rows.Answer? && "" !in rows.value ==> AllInOrder(tenant, rows.value, r.value)
  {
    if rows.Failed? {
      return Failed;
    }
    var hits := [];
    var all := rows.value;
    for i := 0 to |all|
      invariant hits == HitsOf(tenant, all[..i])
    {
      assert all[..i + 1][..i] == all[..i];
      if all[i] == "" {
        continue;
      }
      hits := hits + [Hit(tenant, all[i], "poller", "")];
    }
    assert all[..|all|] == all;
    forall h
      ensures h in hits <==> h.location in all && h.location != "" && h == Hit(tenant, h.location, "poller", "")
    {
      HitsAre(tenant, all, h);
    }
    if "" !in all {
      HitsInOrder(tenant, all);
    }
    return Answer(hits);
  }

  /**
   One cycle.  `patience` is the number of checks of the context that do not yet see it
   cancelled; every tenant and every send makes one.
   */
  method PollOnce(tenants: Reply<seq<Tenant>>, query: Tenant -> Reply<seq<Location>>, patience: nat)
    returns (pushed: seq<Hit>, cancelled: bool)
    ensures tenants.Failed? ==> pushed == [] && !cancelled
    ensures tenants.Answer? && !cancelled ==> pushed == AllHits(tenants.value, query)
    ensures tenants.Answer? ==> exists k :: 0 <= k <= |tenants.value| && pushed <= AllHits(tenants.value[..k], query)
    ensures tenants.Answer? && patience >= |tenants.value| + |AllHits(tenants.value, query)| ==> !cancelled
  {
    hide AllNamed, AllInOrder, HitsOf;
    pushed, cancelled := [], false;
    if tenants.Failed? {
      return;
    }
    var ts := tenants.value;
    assert ts[..|ts|] == ts;
    var left := patience;
    for i := 0 to |ts|
      invariant pushed == AllHits(ts[..i], query) && !cancelled
      invariant left == patience - i - |pushed|
    {
      PrefixHits(ts, i, query);
      PrefixHits(ts, i + 1, query);
      if left == 0 {
        return pushed, true;
      }
      left := left - 1;
      assert ts[..i + 1][..i] == ts[..i];
      var hits := FreshSnapshots(ts[i], query(ts[i]));
      if hits.Failed? {
        continue;
      }
      ghost var before := pushed;
      for j := 0 to |hits.value|
        invariant pushed == before + hits.value[..j]
        invariant left == patience - i - 1 - |pushed|
      {
        if left == 0 {
          assert pushed <= AllHits(ts[..i + 1], query);
          return pushed, true;
        }
        left := left - 1;
        pushed := pushed + [hits.value[j]];
      }
      assert hits.value[..|hits.value|] == hits.value;
    }
    assert pushed <= AllHits(ts[..|ts|], query);
  }

  lemma {:induction false} PrefixHits(ts: seq<Tenant>, k: nat, query: Tenant -> Reply<seq<Location>>)
    requires k <= |ts|
    ensures |AllHits(ts[..k], query)| <= |AllHits(ts, query)|
    decreases |ts|
  {
    if k < |ts| {
      var init := ts[..|ts| - 1];
      PrefixHits(init, k, query);
      assert init[..k] == ts[..k];
    } else {
      assert ts[..k] == ts;
    }
  }

  lemma {:induction false} HitIsPushed(tenant: Tenant, rows: seq<Location>, loc: Location)
    requires loc in rows && loc != ""
    ensures Hit(tenant, loc, "poller", "") in HitsOf(tenant, rows)
    decreases |rows|
  {
    var last := |rows| - 1;
    if rows[last] != loc {
      assert loc in rows[..last];
      HitIsPushed(tenant, rows[..last], loc);
    }
  }

  lemma {:induction false} TenantIsPolled(ts: seq<Tenant>, query: Tenant -> Reply<seq<Location>>, t: Tenant, h: Hit)
    requires t in ts && query(t).Answer? && h in HitsOf(t, query(t).value)
    ensures h in AllHits(ts, query)
    decreases |ts|
  {
    var last := |ts| - 1;
    if ts[last] != t {
      assert t in ts[..last];
      TenantIsPolled(ts[..last], query, t, h);
    }
  }

  /** No hit of the poller names its table. */
  lemma {:induction false} PollerHitsAreNameless(ts: seq<Tenant>, query: Tenant -> Reply<seq<Location>>, h: Hit)
    requires h in AllHits(ts, query)
    ensures h.table == "" && h.location != "" && h.tenant in ts
  {
    var last := ts[|ts| - 1];
    if query(last).Answer? && h in HitsOf(last, query(last).value) {
      NamelessHits(last, query(last).value, h);
    } else {
      PollerHitsAreNameless(ts[..|ts| - 1], query, h);
    }
  }

  lemma {:induction false} NamelessHits(tenant: Tenant, rows: seq<Location>, h: Hit)
    requires h in HitsOf(tenant, rows)
    ensures h.table == "" && h.location != "" && h.tenant == tenant
  {
    if h in HitsOf(tenant, rows[..|rows| - 1]) {
      NamelessHits(tenant, rows[..|rows| - 1], h);
    }
  }

  // ---- Coverage ----

  /** Polls in time order, at most one interval apart, the first not after `from`, the last not before it. */
  ghost predicate Paced(polls: seq<PollTime>, from: int) {
    && polls != []
    && polls[0] <= from <= polls[|polls| - 1]
    && forall i, j :: 0 <= i && j == i + 1 && j < |polls| ==> polls[i] < polls[j] <= polls[i] + INTERVAL
  }

  /** A poll whose window text still covers a snapshot committed at `c`. */
  predicate Covers(poll: PollTime, c: CommitTime) {
    LexLess(Since(poll), Rfc3339Nano(c))
  }

  /** Some poll comes when the snapshot is visible, less than one interval after it became so. */
  lemma {:induction false} PollInTime(polls: seq<PollTime>, from: int, n: nat) returns (i: nat)
    requires Paced(polls, from) && n < |polls| && from <= polls[n]
    ensures i <= n && from <= polls[i] && (i == 0 ==> polls[i] == from) && polls[i] < from + INTERVAL
    decreases n
  {
    if n > 0 && from <= polls[n - 1] {
      i := PollInTime(polls, from, n - 1);
    } else {
      i := n;
    }
  }

  /** Largest delay between commit and visibility that the poller can bridge. */
  const MAX_DELAY: nat := 29 * NANOS + MILLI

  lemma PollCovers(polls: seq<PollTime>, c: CommitTime, visible: int) returns (i: nat)
    requires visible <= c + MAX_DELAY && Paced(polls, visible)
    ensures i < |polls| && visible <= polls[i] && Covers(polls[i], c)
  {
    hide LexLess, Rfc3339Nano;
    i := PollInTime(polls, visible, |polls| - 1);
    EarlierSecondMatches(polls[i] - LOOKBACK, c);
  }

  /** More than 999 ms before a whole millisecond lies another second, which is enough for the text. */
  lemma EarlierSecondMatches(since: Instant, c: CommitTime)
    requires since + NANOS - MILLI < c
    ensures LexLess(Rfc3339Nano(since), Rfc3339Nano(c))
  {
    hide LexLess, Rfc3339Nano;
    LastMilli(c);
    assert SecondOf(since) < SecondOf(c);
    NanoOrderAcrossSeconds(since, c);
  }

  lemma LastMilli(c: CommitTime)
    ensures c % NANOS <= NANOS - MILLI
  {
    assert NANOS == 1000 * MILLI;
    var m := c / MILLI;
    assert c == m * MILLI;
    assert m == 1000 * (m / 1000) + m % 1000;
    assert c == NANOS * (m / 1000) + MILLI * (m % 1000);
  }

  /** One successful poll: its time, the active tenants, the query answers and what was pushed. */
  datatype Poll = Poll(at: PollTime, tenants: seq<Tenant>, query: Tenant -> Reply<seq<Location>>, pushed: seq<Hit>)

  function Locations(rows: seq<Snapshot>): seq<Location> {
    seq(|rows|, i requires 0 <= i < |rows| => rows[i].location)
  }

  /** The poll was complete and tenant `t` was asked about `graph`. */
  ghost predicate Succeeds(p: Poll, t: Tenant, graph: set<Snapshot>) {
    && t in p.tenants
    && p.pushed == AllHits(p.tenants, p.query)
    && exists rows :: IsAnswer(graph, Since(p.at), rows) && p.query(t) == Answer(Locations(rows))
  }

  function Times(polls: seq<Poll>): seq<PollTime> {
    seq(|polls|, i requires 0 <= i < |polls| => polls[i].at)
  }

  /**
   If polls are complete, at most 30 s apart and never meet the row limit, a snapshot that becomes
   visible no more than 29 s and a millisecond after its commit time is pushed by one of them.
   */
  lemma VisibleSnapshotIsPushed(
      polls: seq<Poll>, t: Tenant, graphAt: int -> set<Snapshot>, s: Snapshot, visible: int)
    returns (i: nat)
    requires s.committedAt.Some? && s.location != ""
    requires visible <= s.committedAt.value + MAX_DELAY
    requires Paced(Times(polls), visible)
    requires forall at :: at >= visible ==> s in graphAt(at)
    requires forall p :: p in polls ==>
      Succeeds(p, t, graphAt(p.at)) && |MatchSet(graphAt(p.at), Since(p.at))| <= MAX_PER_TENANT
    ensures i < |polls| && Hit(t, s.location, "poller", "") in polls[i].pushed
  {
    hide LexLess, Rfc3339Nano;
    i := PollCovers(Times(polls), s.committedAt.value, visible);
    var p := polls[i];
    var graph := graphAt(p.at);
    assert p in polls && p.at == Times(polls)[i];
    var rows :| IsAnswer(graph, Since(p.at), rows) && p.query(t) == Answer(Locations(rows));
    assert s in MatchSet(graph, Since(p.at));
    var k :| 0 <= k < |rows| && rows[k] == s;
    assert Locations(rows)[k] == s.location;
    HitIsPushed(t, Locations(rows), s.location);
    TenantIsPolled(p.tenants, p.query, t, Hit(t, s.location, "poller", ""));
  }

  // ---- The bound is exact ----

  predicate VisibleAfter(c: CommitTime, delay: nat, visible: int) {
    visible == c + delay
  }

  /** Every paced run of polls has one that covers a snapshot visible `delay` after its commit. */
  ghost predicate SafeDelay(delay: nat) {
    forall polls: seq<PollTime>, c: CommitTime, visible: int ::
      Paced(polls, visible) && VisibleAfter(c, delay, visible) ==>
      exists i :: 0 <= i < |polls| && polls[i] >= visible && Covers(polls[i], c)
  }

  /** A commit time that longer delays lose: the last millisecond of its second. */
  const UNLUCKY_COMMIT: CommitTime := 100 * NANOS + 999 * MILLI

  /** How long before the snapshot becomes visible the unlucky poll comes. */
  function Lead(delay: nat): nat
    requires delay > MAX_DELAY
  {
    if delay <= INTERVAL then delay - MAX_DELAY
    else if delay <= INTERVAL + MILLI then delay - INTERVAL
    else 1
  }

  /** Polls one interval apart, the first just before the snapshot becomes visible. */
  function Grid(delay: nat, k: nat): int
    requires delay > MAX_DELAY
  {
    UNLUCKY_COMMIT + delay - Lead(delay) + k * INTERVAL
  }

  lemma LaterSecondNeverMatches(since: Instant, c: Instant)
    requires since >= c && (since == c || SecondOf(since) != SecondOf(c))
    ensures !LexLess(Rfc3339Nano(since), Rfc3339Nano(c))
  {
    if since == c {
      LexTotal(Rfc3339Nano(c), Rfc3339Nano(c));
    } else {
      NanoOrderAcrossSeconds(since, c);
    }
  }

  /** Text puts a whole second behind every fraction of it. */
  lemma WholeSecondNeverMatches(since: Instant, c: Instant)
    requires since < c && SecondOf(since) == SecondOf(c) && since % NANOS == 0
    ensures !LexLess(Rfc3339Nano(since), Rfc3339Nano(c))
  {
    WholeSecondFraction(since);
    SomeFraction(c);
    NanoOrderWithinSecond(since, c);
  }

  /** No poll of the grid that comes after the snapshot became visible covers it, ever. */
  lemma GridNeverCovers(delay: nat, k: nat, poll: PollTime)
    requires delay > MAX_DELAY && k > 0 && poll == Grid(delay, k)
    ensures poll >= UNLUCKY_COMMIT + delay && !Covers(poll, UNLUCKY_COMMIT)
  {
    GridSince(delay, k, poll);
    NoMatchNoCover(poll, poll - LOOKBACK, UNLUCKY_COMMIT);
  }

  lemma NoMatchNoCover(poll: PollTime, since: Instant, c: CommitTime)
    requires since == poll - LOOKBACK
    requires
      || (since < c && since % NANOS == 0 && SecondOf(since) == SecondOf(c))
      || (since >= c && (since == c || SecondOf(since) != SecondOf(c)))
    ensures !Covers(poll, c)
  {
    hide LexLess, Rfc3339Nano;
    if since < c {
      WholeSecondNeverMatches(since, c);
    } else {
      LaterSecondNeverMatches(since, c);
    }
  }

  lemma GridSince(delay: nat, k: nat, poll: PollTime)
    requires delay > MAX_DELAY && k > 0 && poll == Grid(delay, k)
    ensures poll >= UNLUCKY_COMMIT + delay
    ensures var c, since := UNLUCKY_COMMIT, poll - LOOKBACK;
      if delay <= INTERVAL && k == 1 then
        since < c && since % NANOS == 0 && SecondOf(since) == SecondOf(c)
      else
        since >= c && (since == c || SecondOf(since) != SecondOf(c))
  {
    var since := poll - LOOKBACK;
    if k > 1 {
      assert k * INTERVAL >= 2 * INTERVAL;
      assert since >= UNLUCKY_COMMIT + NANOS;
    } else if delay <= INTERVAL {
      assert since == 100 * NANOS;
    } else if delay > INTERVAL + MILLI {
      assert since >= 101 * NANOS;
    } else {
      assert since == UNLUCKY_COMMIT;
    }
  }

  lemma {:induction false} ZerosTrimToNothing(w: nat)
    ensures TrimZeros(Pad(0, w)) == ""
  {
    if w > 0 {
      ZerosTrimToNothing(w - 1);
      TrimTail(Pad(0, w - 1), '0');
    }
  }

  lemma {:induction false} TrimTail(s: string, c: char)
    requires c == '0'
    ensures TrimZeros(s + [c]) == TrimZeros(s)
    decreases |s|
  {
    if s != "" {
      assert (s + [c])[1..] == s[1..] + [c];
      TrimTail(s[1..], c);
    }
  }

  lemma WholeSecondFraction(t: Instant)
    requires t % NANOS == 0
    ensures Fraction(t) == ""
  {
    ZerosTrimToNothing(9);
  }

  lemma SomeFraction(t: Instant)
    requires t % NANOS != 0
    ensures Fraction(t) != ""
  {
    assert Pow10(9) == NANOS;
    PadOrder(0, t % NANOS, 9);
    PadIsDigits(0, 9);
    PadIsDigits(t % NANOS, 9);
    GreaterIsNotAllZeros(Pad(0, 9), Pad(t % NANOS, 9));
  }

  /**
   The delay that the poller bridges, whatever the alignment, is 29 s and a millisecond: of the
   30 s of spare look-back the text order may lose the 999 ms before a commit in the same second.
   */
  lemma DelayIsSafeIff(delay: nat)
    requires delay + 300 * NANOS < END
    ensures SafeDelay(delay) <==> delay <= MAX_DELAY
  {
    if delay <= MAX_DELAY {
      forall polls: seq<PollTime>, c: CommitTime, visible: int
        | Paced(polls, visible) && VisibleAfter(c, delay, visible)
        ensures exists i :: 0 <= i < |polls| && polls[i] >= visible && Covers(polls[i], c)
      {
        var i := PollCovers(polls, c, visible);
      }
    } else {
      UnluckyRun(delay);
    }
  }

  lemma UnluckyRun(delay: nat)
    requires delay > MAX_DELAY
    requires delay + 300 * NANOS < END
    ensures !SafeDelay(delay)
  {
    hide LexLess, Rfc3339Nano;
    var visible := UNLUCKY_COMMIT + delay;
    var polls: seq<PollTime> := [Grid(delay, 0), Grid(delay, 1)];
    assert Paced(polls, visible) && VisibleAfter(UNLUCKY_COMMIT, delay, visible);
    GridNeverCovers(delay, 1, polls[1]);
  }
}
