/**
 * The pure parts of the ticket-violation store (src/db/ticket-violation-client.ts):
 * the row normalisation applied to every query result, the argument guards
 * of the writer and the period reader, and the weekly and monthly periods.
 * The SQL and the connection pool are not part of this model; a query's
 * result rows are an input.
 */
module TicketViolationClient {
  import opened Js

  const WeeklyDays: int := 7
  const MonthlyDays: int := 30
  const MinPeriodDays: int := 1
  const MaxPeriodDays: int := 90

  /** A `ticket_counts` value as the JSON column returns it. */
  datatype RawCount = Text(s: string) | Number(n: int)

  /** A row as the database returns it; `ticket_counts` may be missing. */
  datatype RawRow = RawRow(guildId: string, date: int, counts: Option<map<string, RawCount>>)

  /** A row after `processRows`: every count is a number (possibly NaN). */
  datatype Row = Row(guildId: string, date: int, counts: Option<map<string, Num>>)

  /** `typeof count === "string" ? parseInt(count, 10) : count` */
  function ParseCount(c: RawCount): (n: Num)
    ensures c.Number? ==> n == Int(c.n)
  {
    match c
    case Text(s) => ParseInt(s)
    case Number(n) => Int(n)
  }

  /** The row `processRows` produces for one input row. */
  function ProcessedRow(row: RawRow): Row
  {
    match row.counts
    case None => Row(row.guildId, row.date, None)
    case Some(c) => Row(row.guildId, row.date, Some(map id | id in c :: ParseCount(c[id])))
  }

  /** `processRows`: one output row per input row, in order. */
  method ProcessRows(rows: seq<RawRow>) returns (out: seq<Row>)
    ensures |out| == |rows|
    ensures forall k :: 0 <= k < |rows| ==> out[k] == ProcessedRow(rows[k])
  {
    out := [];
    for i := 0 to |rows|
      invariant |out| == i
      invariant forall k :: 0 <= k < i ==> out[k] == ProcessedRow(rows[k])
    {
      var row := rows[i];
      if row.counts.Some? {
        var source := row.counts.value;
        var ticketCounts: map<string, Num> := map[];
        var remaining := source.Keys;
        while remaining != {}
          invariant remaining <= source.Keys
          invariant ticketCounts == map id | id in source.Keys - remaining :: ParseCount(source[id])
          decreases remaining
        {
          var playerId :| playerId in remaining;
          ticketCounts := ticketCounts[playerId := ParseCount(source[playerId])];
          remaining := remaining - {playerId};
        }
        assert source.Keys - remaining == source.Keys;
        out := out + [Row(row.guildId, row.date, Some(ticketCounts))];
      } else {
        out := out + [Row(row.guildId, row.date, None)];
      }
    }
  }

  /** Normalisation keeps the guild, the date, the presence of the counts and
      the player keys; a count stored as the decimal text of n reads as n and
      a numeric count is kept. */
  lemma ProcessedRowKeeps(row: RawRow)
    ensures ProcessedRow(row).guildId == row.guildId && ProcessedRow(row).date == row.date
    ensures ProcessedRow(row).counts.None? <==> row.counts.None?
    ensures row.counts.Some? ==> ProcessedRow(row).counts.value.Keys == row.counts.value.Keys
    ensures row.counts.Some? ==> forall id, n: nat ::
      (id in row.counts.value && (row.counts.value[id] == Text(DecimalString(n)) || row.counts.value[id] == Number(n)))
      ==> ProcessedRow(row).counts.value[id] == Int(n)
  {
    forall n: nat ensures ParseInt(DecimalString(n)) == Int(n) {
      ParseDecimalString(n);
    }
  }

  /** `recordViolations` writes only for a non-empty guild id and a non-empty
      record; `written` is the outcome of the insert itself. */
  function RecordViolations(guildId: string, counts: map<string, int>, written: bool): (ok: bool)
    ensures ok ==> guildId != "" && |counts| > 0
    ensures guildId != "" && |counts| > 0 ==> ok == written
  {
    if guildId == "" || |counts| == 0 then false else written
  }

  /** The guard of `getCustomPeriodViolations`. */
  predicate PeriodAccepted(guildId: string, days: int)
  {
    guildId != "" && MinPeriodDays <= days <= MaxPeriodDays
  }

  /** `getCustomPeriodViolations`: no query (and no rows) for an empty guild
      id or a period outside 1..90 days; otherwise the queried rows,
      normalised. */
  method GetCustomPeriodViolations(guildId: string, days: int, queried: seq<RawRow>) returns (out: seq<Row>)
    ensures !PeriodAccepted(guildId, days) ==> out == []
    ensures PeriodAccepted(guildId, days) ==>
      |out| == |queried| && forall k :: 0 <= k < |queried| ==> out[k] == ProcessedRow(queried[k])
  {
    if guildId == "" || days < MinPeriodDays || days > MaxPeriodDays {
      return [];
    }
    out := ProcessRows(queried);
  }

  /** `getWeeklyViolations`: the 7-day period, which the guard always accepts
      for a non-empty guild id. */
  method GetWeeklyViolations(guildId: string, queried: seq<RawRow>) returns (out: seq<Row>)
    ensures guildId == "" ==> out == []
    ensures guildId != "" ==>
      |out| == |queried| && forall k :: 0 <= k < |queried| ==> out[k] == ProcessedRow(queried[k])
  {
    out := GetCustomPeriodViolations(guildId, WeeklyDays, queried);
  }

  /** `getMonthlyViolations`: the 30-day period. */
  method GetMonthlyViolations(guildId: string, queried: seq<RawRow>) returns (out: seq<Row>)
    ensures guildId == "" ==> out == []
    ensures guildId != "" ==>
      |out| == |queried| && forall k :: 0 <= k < |queried| ==> out[k] == ProcessedRow(queried[k])
  {
    out := GetCustomPeriodViolations(guildId, MonthlyDays, queried);
  }
}
