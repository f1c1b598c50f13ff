/**
 * The weekly, monthly and custom-period violation summaries
 * (src/services/violation-summary.ts). The recorded violation rows of a
 * period are reduced to one counter per player (days recorded, tickets
 * recorded), the counters to per-player statistics, and the statistics are
 * ranked by average daily tickets, totalled and cut into pages of ten.
 *
 * The rows and the guild's member list are inputs (the database query and
 * the game-data fetch are not part of this model); the iteration order of a
 * JavaScript `Map` is left unspecified, which the model expresses by
 * choosing keys with `:|`.
 */
module ViolationSummary {
  import opened Js
  import opened Sorting
  import TicketViolationClient
  import TicketMonitor

  type Row = TicketViolationClient.Row

  const TicketThreshold: int := 600
  const PlayersPerEmbed: int := 10

  datatype Counter = Counter(violations: int, ticketSum: int)

  // ---------------------------------------------------------------------
  // collectViolationCounts

  /** `violation.ticket_counts || {}` */
  function RowCounts(row: Row): map<string, Num>
  {
    if row.counts.Some? then row.counts.value else map[]
  }

  function CounterOf(m: map<string, Counter>, id: string): Counter
  {
    if id in m then m[id] else Counter(0, 0)
  }

  /** One more violation day for a player, with `count || 0` tickets. */
  function Bump(c: Counter, count: Num): Counter
  {
    Counter(c.violations + 1, c.ticketSum + OrZero(count))
  }

  /** The counters after the players in `done` of one row have been counted. */
  function CountPlayers(m: map<string, Counter>, counts: map<string, Num>, done: set<string>): map<string, Counter>
    requires done <= counts.Keys
  {
    map id | id in m.Keys + done :: if id in done then Bump(CounterOf(m, id), counts[id]) else m[id]
  }

  /** The counters after the rows in order. */
  function Collect(rows: seq<Row>): map<string, Counter>
  {
    if rows == [] then map[]
    else
      var counts := RowCounts(rows[|rows| - 1]);
      CountPlayers(Collect(rows[..|rows| - 1]), counts, counts.Keys)
  }

  /** `collectViolationCounts`: nested loops over the rows and each row's
      players, updating the counter map in place. */
  method CollectViolationCounts(rows: seq<Row>) returns (counters: map<string, Counter>)
    ensures counters == Collect(rows)
  {
    counters := map[];
    for i := 0 to |rows|
      invariant counters == Collect(rows[..i])
    {
      var ticketCounts := RowCounts(rows[i]);
      ghost var before := counters;
      ghost var done: set<string> := {};
      var remaining := ticketCounts.Keys;
      while remaining != {}
        invariant done <= ticketCounts.Keys && remaining == ticketCounts.Keys - done
        invariant CountedSoFar(counters, before, ticketCounts, done)
        decreases remaining
      {
        var playerId :| playerId in remaining;
        var counter := if playerId in counters then counters[playerId] else Counter(0, 0);
        counter := Counter(counter.violations + 1, counter.ticketSum + OrZero(ticketCounts[playerId]));
        counters := counters[playerId := counter];
        remaining := remaining - {playerId};
        done := done + {playerId};
      }
      assert done == ticketCounts.Keys;
      CountedIsCountPlayers(counters, before, ticketCounts, done);
      CollectNext(rows, i);
    }
    assert rows[..|rows|] == rows;
  }

  /** The inner loop's invariant: the players in `done` have been counted
      once more, every other player keeps its counter. */
  predicate CountedSoFar(c: map<string, Counter>, m: map<string, Counter>, counts: map<string, Num>, done: set<string>)
    requires done <= counts.Keys
  {
    c.Keys == m.Keys + done &&
    forall x :: x in c ==> c[x] == if x in done then Bump(CounterOf(m, x), counts[x]) else m[x]
  }

  lemma CountKeys(m: map<string, Counter>, counts: map<string, Num>, done: set<string>)
    requires done <= counts.Keys
    ensures CountPlayers(m, counts, done).Keys == m.Keys + done
  {
  }

  lemma CountAt(m: map<string, Counter>, counts: map<string, Num>, done: set<string>, x: string)
    requires done <= counts.Keys && x in m.Keys + done
    ensures CountPlayers(m, counts, done)[x] == if x in done then Bump(CounterOf(m, x), counts[x]) else m[x]
  {
  }

  lemma CountedIsCountPlayers(c: map<string, Counter>, m: map<string, Counter>, counts: map<string, Num>, done: set<string>)
    requires done <= counts.Keys && CountedSoFar(c, m, counts, done)
    ensures c == CountPlayers(m, counts, done)
  {
    var expected := CountPlayers(m, counts, done);
    CountKeys(m, counts, done);
    forall x | x in c ensures c[x] == expected[x] {
      CountAt(m, counts, done, x);
    }
    SameCounters(c, expected);
  }

  /** Two counter maps with the same players and the same counters are equal. */
  lemma SameCounters(a: map<string, Counter>, b: map<string, Counter>)
    requires a.Keys == b.Keys && forall x :: x in a ==> a[x] == b[x]
    ensures a == b
  {
  }

  lemma CollectNext(rows: seq<Row>, i: nat)
    requires i < |rows|
    ensures Collect(rows[..i + 1]) == CountPlayers(Collect(rows[..i]), RowCounts(rows[i]), RowCounts(rows[i]).Keys)
  {
    assert rows[..i + 1][..i] == rows[..i];
  }

  /** Whether a row records the player. */
  predicate Records(row: Row, id: string)
  {
    row.counts.Some? && id in row.counts.value
  }

  /** The number of rows that record the player. */
  function ViolationsOf(rows: seq<Row>, id: string): nat
  {
    if rows == [] then 0
    else ViolationsOf(rows[..|rows| - 1], id) + (if Records(rows[|rows| - 1], id) then 1 else 0)
  }

  /** The sum of the player's recorded counts (NaN counting as 0). */
  function TicketSumOf(rows: seq<Row>, id: string): int
  {
    if rows == [] then 0
    else
      var last := rows[|rows| - 1];
      TicketSumOf(rows[..|rows| - 1], id) + (if Records(last, id) then OrZero(last.counts.value[id]) else 0)
  }

  /** A player has a counter iff some row records them; the counter holds the
      number of rows recording them and the sum of their counts. Rows without
      counts, or with empty counts, add no player. */
  lemma {:induction false} CollectCounts(rows: seq<Row>, id: string)
    ensures id in Collect(rows) <==> ViolationsOf(rows, id) > 0
    ensures CounterOf(Collect(rows), id) == Counter(ViolationsOf(rows, id), TicketSumOf(rows, id))
  {
    if rows != [] {
      CollectCounts(rows[..|rows| - 1], id);
    }
  }

  /** When every count recorded for the player is below the threshold, each
      violation day misses at least one ticket; when every count is
      non-negative, no day misses more than 600. */
  lemma {:induction false} TicketSumBounds(rows: seq<Row>, id: string)
    ensures (forall k :: 0 <= k < |rows| && Records(rows[k], id) ==> OrZero(rows[k].counts.value[id]) < TicketThreshold)
            ==> TicketSumOf(rows, id) <= (TicketThreshold - 1) * ViolationsOf(rows, id)
    ensures (forall k :: 0 <= k < |rows| && Records(rows[k], id) ==> OrZero(rows[k].counts.value[id]) >= 0)
            ==> TicketSumOf(rows, id) >= 0
  {
    if rows != [] {
      var init := rows[..|rows| - 1];
      TicketSumBounds(init, id);
      forall k | 0 <= k < |init| ensures init[k] == rows[k] { }
    }
  }

  // ---------------------------------------------------------------------
  // Statistics

  /** `calculateMissingTickets` */
  function MissingTickets(c: Counter): int
  {
    c.violations * TicketThreshold - c.ticketSum
  }

  /** What the player missed on the recorded days: 600 less the recorded
      count (NaN counting as 0) on every row that records them. */
  function MissedOf(rows: seq<Row>, id: string): int
  {
    if rows == [] then 0
    else
      var last := rows[|rows| - 1];
      MissedOf(rows[..|rows| - 1], id) + (if Records(last, id) then TicketThreshold - OrZero(last.counts.value[id]) else 0)
  }

  /** The missing tickets of a collected counter are the shortfalls below
      600 of the days that record the player, added up. */
  lemma {:induction false} MissingPerDay(rows: seq<Row>, id: string)
    ensures MissingTickets(CounterOf(Collect(rows), id)) == MissedOf(rows, id)
  {
    CollectCounts(rows, id);
    MissedIsShortfall(rows, id);
  }

  lemma {:induction false} MissedIsShortfall(rows: seq<Row>, id: string)
    ensures MissedOf(rows, id) == ViolationsOf(rows, id) * TicketThreshold - TicketSumOf(rows, id)
  {
    if rows != [] {
      MissedIsShortfall(rows[..|rows| - 1], id);
    }
  }

  /** `calculateAverageTickets`: the tickets collected over the whole period,
      counting every day without a violation as a full 600, per day. */
  function AverageTickets(c: Counter, days: int): (avg: real)
    requires days > 0
    ensures avg * days as real == (days * TicketThreshold - MissingTickets(c)) as real
  {
    (days * TicketThreshold - MissingTickets(c)) as real / days as real
  }

  /** A counter from the rows of a period of `days` days, in which the
      player violated on at most `days` days with counts in 0..599, has an
      average in [0, 600), and the average is below 600 by exactly the
      missing tickets spread over the period. */
  lemma AverageBounds(rows: seq<Row>, id: string, days: int)
    requires days > 0 && ViolationsOf(rows, id) <= days
    requires forall k :: 0 <= k < |rows| && Records(rows[k], id) ==>
               0 <= OrZero(rows[k].counts.value[id]) < TicketThreshold
    ensures var c := CounterOf(Collect(rows), id);
      0.0 <= AverageTickets(c, days) <= TicketThreshold as real &&
      (AverageTickets(c, days) < TicketThreshold as real <==> id in Collect(rows))
  {
    CollectCounts(rows, id);
    TicketSumBounds(rows, id);
    AverageRange(CounterOf(Collect(rows), id), days);
  }

  /** The bounds of the average for one counter. */
  lemma AverageRange(c: Counter, days: int)
    requires 0 <= c.violations <= days && days > 0
    requires 0 <= c.ticketSum <= (TicketThreshold - 1) * c.violations
    ensures 0.0 <= AverageTickets(c, days) <= TicketThreshold as real
    ensures AverageTickets(c, days) < TicketThreshold as real <==> c.violations > 0
  {
    MissingRange(c, days);
    QuotientBounds((days * TicketThreshold - MissingTickets(c)) as real, days as real, TicketThreshold as real);
  }

  /** A counter of at most `days` violation days, each below the threshold,
      misses between nothing and the whole period's tickets, and misses
      something iff it has a violation. */
  lemma MissingRange(c: Counter, days: int)
    requires 0 <= c.violations <= days
    requires 0 <= c.ticketSum <= (TicketThreshold - 1) * c.violations
    ensures 0 <= MissingTickets(c) <= TicketThreshold * days
    ensures MissingTickets(c) > 0 <==> c.violations > 0
  {
  }

  /** For a positive divisor, `x / d` lies in [0, hi] when x lies in
      [0, hi * d], and reaches hi only when x does. */
  lemma QuotientBounds(x: real, d: real, hi: real)
    requires d > 0.0 && 0.0 <= x <= hi * d
    ensures 0.0 <= x / d <= hi
    ensures x / d < hi <==> x < hi * d
  {
    var q := x / d;
    assert q * d == x;
    if q < hi {
      assert q * d < hi * d;
    }
  }

  /** A player's line in the report. */
  datatype Stat = Stat(playerName: string, violationCount: int, averageTickets: real, totalMissingTickets: int)

  function StatOf(c: Counter, days: int, name: string): Stat
    requires days > 0
  {
    Stat(name, c.violations, AverageTickets(c, days), MissingTickets(c))
  }

  /** The players `transformCountersToStats` keeps. */
  function KeptIds(counters: map<string, Counter>, names: map<string, string>): set<string>
  {
    set id | id in counters && counters[id].violations != 0 && id in names
  }

  /** The statistics of the kept players. */
  function KeptStats(counters: map<string, Counter>, names: map<string, string>, days: int): (stats: map<string, Stat>)
    requires days > 0
    ensures stats.Keys == KeptIds(counters, names)
  {
    map id | id in KeptIds(counters, names) :: StatOf(counters[id], days, names[id])
  }

  /** `transformCountersToStats`: a player is kept iff they have violations
      and a name; their statistics come from their counter and the name. */
  method TransformCountersToStats(counters: map<string, Counter>, days: int, names: map<string, string>)
    returns (stats: map<string, Stat>)
    requires days > 0
    ensures stats.Keys == KeptIds(counters, names)
    ensures forall id :: id in stats ==> stats[id] == StatOf(counters[id], days, names[id])
    ensures stats == KeptStats(counters, names, days)
  {
    stats := map[];
    var remaining := counters.Keys;
    while remaining != {}
      invariant remaining <= counters.Keys
      invariant stats.Keys == KeptIds(counters, names) - remaining
      invariant forall id :: id in stats ==> stats[id] == StatOf(counters[id], days, names[id])
      decreases remaining
    {
      var playerId :| playerId in remaining;
      remaining := remaining - {playerId};
      var counter := counters[playerId];
      if counter.violations == 0 {
        continue;
      }
      if playerId !in names {
        continue;
      }
      var missingTickets := MissingTickets(counter);
      var averageTickets := AverageTickets(counter, days);
      stats := stats[playerId := Stat(names[playerId], counter.violations, averageTickets, missingTickets)];
    }
    SameStats(stats, KeptStats(counters, names, days));
  }

  lemma SameStats(a: map<string, Stat>, b: map<string, Stat>)
    requires a.Keys == b.Keys && forall x :: x in a ==> a[x] == b[x]
    ensures a == b
  {
  }

  /** Counters built from rows never have zero violations, so only the name
      rule drops a player from a report. */
  lemma CollectedKept(rows: seq<Row>, names: map<string, string>, id: string)
    ensures id in KeptIds(Collect(rows), names) <==> ViolationsOf(rows, id) > 0 && id in names
  {
    CollectCounts(rows, id);
  }

  /** `new Map(members.map(m => [m.playerId, m.playerName]))` */
  function NamesOf(members: seq<TicketMonitor.Member>): (names: map<string, string>)
    ensures forall k :: 0 <= k < |members| ==> members[k].playerId in names
    ensures forall id :: id in names ==> exists k :: 0 <= k < |members| && members[k].playerId == id
  {
    if members == [] then map[]
    else
      var init := members[..|members| - 1];
      var last := members[|members| - 1];
      var names := NamesOf(init)[last.playerId := last.playerName];
      assert forall k :: 0 <= k < |init| ==> members[k] == init[k];
      names
  }

  /** A later member with the same id overwrites an earlier one: an id
      names the player of the last member that carries it. */
  lemma {:induction false} NamesOfLast(members: seq<TicketMonitor.Member>, k: nat)
    requires k < |members|
    requires forall j :: k < j < |members| ==> members[j].playerId != members[k].playerId
    ensures NamesOf(members)[members[k].playerId] == members[k].playerName
  {
    var init := members[..|members| - 1];
    if k < |members| - 1 {
      forall j | k < j < |init| ensures init[j].playerId != init[k].playerId {
        assert init[j] == members[j];
      }
      NamesOfLast(init, k);
      assert init[k] == members[k];
    }
  }

  // ---------------------------------------------------------------------
  // Ranking, total and pages

  function AverageKey(s: Stat): real { s.averageTickets }

  function StatMissing(s: Stat): int { s.totalMissingTickets }

  /** `Math.ceil(n / 10)` */
  function PageCount(n: nat): (r: nat)
    ensures r * PlayersPerEmbed >= n && (r == 0 || (r - 1) * PlayersPerEmbed < n)
  {
    (n + PlayersPerEmbed - 1) / PlayersPerEmbed
  }

  function Min(a: int, b: int): int { if a <= b then a else b }

  /** The pages glued back together. */
  function Concat<T>(pages: seq<seq<T>>): seq<T>
  {
    if pages == [] then [] else Concat(pages[..|pages| - 1]) + pages[|pages| - 1]
  }

  /** The pagination loop of `sendSummaryReport`: page p (from 1) holds the
      entries from `(p-1)*10` up to `min(p*10, n)`. */
  method Paginate<T>(sorted: seq<T>) returns (pages: seq<seq<T>>)
    ensures |pages| == PageCount(|sorted|)
    ensures forall p :: 0 <= p < |pages| ==>
      pages[p] == sorted[p * PlayersPerEmbed .. Min(p * PlayersPerEmbed + PlayersPerEmbed, |sorted|)]
    ensures forall p :: 0 <= p < |pages| ==> 0 < |pages[p]| <= PlayersPerEmbed
    ensures Concat(pages) == sorted
  {
    var pageCount := PageCount(|sorted|);
    pages := [];
    for page := 1 to pageCount + 1
      invariant |pages| == page - 1
      invariant forall p :: 0 <= p < |pages| ==>
        pages[p] == sorted[p * PlayersPerEmbed .. Min(p * PlayersPerEmbed + PlayersPerEmbed, |sorted|)]
      invariant forall p :: 0 <= p < |pages| ==> 0 < |pages[p]| <= PlayersPerEmbed
      invariant Concat(pages) == sorted[..Min((page - 1) * PlayersPerEmbed, |sorted|)]
    {
      var startIdx := (page - 1) * PlayersPerEmbed;
      var endIdx := Min(startIdx + PlayersPerEmbed, |sorted|);
      var pageStats := sorted[startIdx..endIdx];
      assert Concat(pages + [pageStats]) == Concat(pages) + pageStats by {
        assert (pages + [pageStats])[..|pages|] == pages;
      }
      assert sorted[..startIdx] + sorted[startIdx..endIdx] == sorted[..endIdx];
      pages := pages + [pageStats];
    }
    assert sorted[..|sorted|] == sorted;
  }

  /** `(page - 1) * 10 + index + 1`: for an index on a page of ten, the
      position gives the page and the index back. */
  function Position(page: int, index: int): (r: int)
    ensures page >= 1 && 0 <= index < PlayersPerEmbed ==>
      r >= 1 && (r - 1) / PlayersPerEmbed == page - 1 && (r - 1) % PlayersPerEmbed == index
  {
    (page - 1) * PlayersPerEmbed + index + 1
  }

  /** The displayed position of an entry is its 1-based rank in the sorted
      list. */
  lemma PositionIsRank<T>(sorted: seq<T>, pages: seq<seq<T>>, p: nat, index: nat)
    requires |pages| <= PageCount(|sorted|)
    requires forall q :: 0 <= q < |pages| ==>
      pages[q] == sorted[q * PlayersPerEmbed .. Min(q * PlayersPerEmbed + PlayersPerEmbed, |sorted|)]
    requires p < |pages| && index < |pages[p]|
    ensures 1 <= Position(p + 1, index) <= |sorted|
    ensures sorted[Position(p + 1, index) - 1] == pages[p][index]
  {
  }

  /** What a summary sends: the header numbers, the ranked statistics and
      their pages. */
  datatype Report = Report(reportType: string, days: int, totalViolations: nat, totalMissing: int,
                           ranked: seq<Stat>, pages: seq<seq<Stat>>)

  /** What a summary of `rows` over `days` days promises: the header
      numbers; the kept players' statistics, each exactly once, ranked by
      average tickets; the total of their missing tickets; and pages of at
      most ten that glue back into the ranking. The order of players with
      equal averages follows the map's order and is not fixed here. */
  ghost predicate IsReport(r: Report, reportType: string, rows: seq<Row>, members: seq<TicketMonitor.Member>, days: int)
  {
    days > 0 &&
    var kept := KeptStats(Collect(rows), NamesOf(members), days);
    r.reportType == reportType && r.days == days && r.totalViolations == |rows| &&
    SortedBy(r.ranked, AverageKey) &&
    multiset(r.ranked) == Bag(kept) &&
    r.totalMissing == SumOf(Bag(kept), StatMissing) &&
    |r.pages| == PageCount(|r.ranked|) && Concat(r.pages) == r.ranked &&
    (forall p :: 0 <= p < |r.pages| ==> 0 < |r.pages[p]| <= PlayersPerEmbed)
  }

  /** `sendSummaryReport` once the period's rows and the guild data are in
      hand. No report without rows or without member data. */
  method SendSummaryReport(reportType: string, rows: seq<Row>, guild: Option<TicketMonitor.GuildData>, days: int)
    returns (report: Option<Report>)
    requires days > 0
    ensures (rows == [] || guild.None? || guild.value.members.None?) <==> report.None?
    ensures report.Some? ==>
      var names := NamesOf(guild.value.members.value);
      var counters := Collect(rows);
      var r := report.value;
      r.reportType == reportType && r.days == days && r.totalViolations == |rows| &&
      SortedBy(r.ranked, AverageKey) &&
      |r.ranked| == |KeptIds(counters, names)| &&
      (forall k :: 0 <= k < |r.ranked| ==>
        exists id :: id in KeptIds(counters, names) && r.ranked[k] == StatOf(counters[id], days, names[id])) &&
      (forall id :: id in KeptIds(counters, names) ==> StatOf(counters[id], days, names[id]) in r.ranked) &&
      r.totalMissing == SumBy(r.ranked, StatMissing) &&
      |r.pages| == PageCount(|r.ranked|) && Concat(r.pages) == r.ranked
    ensures report.Some? ==> IsReport(report.value, reportType, rows, guild.value.members.value, days)
  {
    if |rows| == 0 {
      return None;
    }
    if guild.None? || guild.value.members.None? {
      return None;
    }
    var playerNames := NamesOf(guild.value.members.value);
    var playerCounters := CollectViolationCounts(rows);
    var playerStats := TransformCountersToStats(playerCounters, days, playerNames);
    var values := MapValues(playerStats);
    var sortedStats := SortBy(values, AverageKey);
    RankedStats(values, sortedStats, playerStats);
    assert playerStats == KeptStats(playerCounters, playerNames, days);
    var totalMissingTickets := SumBy(sortedStats, StatMissing);
    var pages := Paginate(sortedStats);
    report := Some(Report(reportType, days, |rows|, totalMissingTickets, sortedStats, pages));
  }

  /** `[...m.values()]`: the value of every key once, in the map's own
      order. */
  method MapValues<K, V>(m: map<K, V>) returns (values: seq<V>)
    ensures |values| == |m.Keys|
    ensures multiset(values) == Bag(m)
    ensures forall k :: 0 <= k < |values| ==> exists id :: id in m && values[k] == m[id]
    ensures forall id :: id in m ==> m[id] in values
  {
    values := [];
    var remaining := m.Keys;
    RestrictAll(m);
    while remaining != {}
      invariant remaining <= m.Keys
      invariant |values| + |remaining| == |m.Keys|
      invariant multiset(values) + Bag(Restrict(m, remaining)) == Bag(m)
      decreases remaining
    {
      var id :| id in remaining;
      BagStep(m, values, remaining, id);
      values := values + [m[id]];
      remaining := remaining - {id};
    }
    RestrictNone(m);
    ValuesOfBag(m, values);
  }

  /** Moving one key's value from the unvisited part to the sequence keeps
      the bag of all values. */
  lemma BagStep<K, V>(m: map<K, V>, values: seq<V>, remaining: set<K>, id: K)
    requires remaining <= m.Keys && id in remaining
    requires multiset(values) + Bag(Restrict(m, remaining)) == Bag(m)
    ensures multiset(values + [m[id]]) + Bag(Restrict(m, remaining - {id})) == Bag(m)
  {
    RestrictRemove(m, remaining, id);
    assert multiset(values + [m[id]]) == multiset(values) + multiset{m[id]};
  }

  /** A sequence with the bag of a map's values holds exactly its values. */
  lemma ValuesOfBag<K, V>(m: map<K, V>, values: seq<V>)
    requires multiset(values) == Bag(m)
    ensures forall k :: 0 <= k < |values| ==> exists id :: id in m && values[k] == m[id]
    ensures forall id :: id in m ==> m[id] in values
  {
    BagHas(m);
    forall k | 0 <= k < |values| ensures exists id :: id in m && values[k] == m[id] {
      assert values[k] in multiset(values);
    }
    forall id | id in m ensures m[id] in values {
      assert m[id] in multiset(values);
    }
  }

  /** The part of `m` on the keys in `keys`. */
  function Restrict<K, V>(m: map<K, V>, keys: set<K>): (r: map<K, V>)
    ensures r.Keys == keys * m.Keys
  {
    map k | k in keys && k in m :: m[k]
  }

  lemma RestrictAll<K, V>(m: map<K, V>)
    ensures Restrict(m, m.Keys) == m
  {
  }

  lemma RestrictNone<K, V>(m: map<K, V>)
    ensures Bag(Restrict(m, {})) == multiset{}
  {
    assert Restrict(m, {}).Keys == {};
  }

  lemma RestrictRemove<K, V>(m: map<K, V>, keys: set<K>, k: K)
    requires k in keys && k in m
    ensures Bag(Restrict(m, keys)) == Bag(Restrict(m, keys - {k})) + multiset{m[k]}
  {
    assert Restrict(m, keys) - {k} == Restrict(m, keys - {k});
    BagRemove(Restrict(m, keys), k);
  }

  /** Sorting the values keeps exactly the map's values, each once per
      key, and their missing tickets add up to the sum over the map. */
  lemma RankedStats(values: seq<Stat>, sorted: seq<Stat>, stats: map<string, Stat>)
    requires sorted == SortBy(values, AverageKey)
    requires multiset(values) == Bag(stats)
    requires forall k :: 0 <= k < |values| ==> exists id :: id in stats && values[k] == stats[id]
    requires forall id :: id in stats ==> stats[id] in values
    ensures multiset(sorted) == Bag(stats)
    ensures SumBy(sorted, StatMissing) == SumOf(Bag(stats), StatMissing)
    ensures forall k :: 0 <= k < |sorted| ==> exists id :: id in stats && sorted[k] == stats[id]
    ensures forall id :: id in stats ==> stats[id] in sorted
  {
    SumByIsSumOf(sorted, StatMissing);
    forall k | 0 <= k < |sorted|
      ensures exists id :: id in stats && sorted[k] == stats[id]
    {
      assert sorted[k] in multiset(values);
      var j :| 0 <= j < |values| && values[j] == sorted[k];
    }
    forall id | id in stats ensures stats[id] in sorted {
      assert stats[id] in multiset(sorted);
    }
  }

  /** The report total is the same for any order of the same statistics:
      in the map's order before ranking, after ranking, or in any order a
      different map iteration would give. */
  lemma TotalIndependentOfOrder(a: seq<Stat>, b: seq<Stat>)
    requires multiset(a) == multiset(b)
    ensures SumBy(a, StatMissing) == SumBy(b, StatMissing)
  {
    SumByIsSumOf(a, StatMissing);
    SumByIsSumOf(b, StatMissing);
  }

  // ---------------------------------------------------------------------
  // The three summaries

  datatype Period = Weekly | Monthly | CustomDays(days: int)

  /** The days a summary covers: 7, 30, or the requested count. */
  function PeriodDays(p: Period): int
  {
    match p
    case Weekly => TicketViolationClient.WeeklyDays
    case Monthly => TicketViolationClient.MonthlyDays
    case CustomDays(d) => d
  }

  /** The guard of `generateCustomPeriodSummary`; the fixed periods have
      none. */
  predicate PeriodValid(p: Period)
  {
    !p.CustomDays? || (1 <= p.days <= 90)
  }

  function ReportType(p: Period): string
    requires PeriodValid(p)
  {
    match p
    case Weekly => "Weekly"
    case Monthly => "Monthly"
    case CustomDays(d) => DecimalString(d) + "-Day"
  }

  /** `generateWeeklySummary`, `generateMonthlySummary` and
      `generateCustomPeriodSummary`. `fetch` is the rows the period query
      returns; `queried` says whether the query was issued at all. */
  method GenerateSummary(period: Period, fetch: seq<Row>, guild: Option<TicketMonitor.GuildData>)
    returns (queried: bool, report: Option<Report>)
    ensures queried <==> PeriodValid(period)
    ensures !PeriodValid(period) ==> report.None?
    ensures fetch == [] ==> report.None?
    ensures report.Some? ==> report.value.days == PeriodDays(period) && report.value.days > 0 &&
                             report.value.reportType == ReportType(period) &&
                             report.value.totalViolations == |fetch|
    ensures PeriodValid(period) && fetch != [] && guild.Some? && guild.value.members.Some? ==> report.Some?
    ensures report.Some? ==>
      guild.Some? && guild.value.members.Some? &&
      IsReport(report.value, ReportType(period), fetch, guild.value.members.value, PeriodDays(period))
  {
    if period.CustomDays? && (period.days < 1 || period.days > 90) {
      return false, None;
    }
    queried := true;
    var violations := fetch;
    if |violations| == 0 {
      return queried, None;
    }
    report := SendSummaryReport(ReportType(period), violations, guild, PeriodDays(period));
  }
}
