/**
 * The ticket monitor (src/services/ticket-monitor.ts). Every minute it looks
 * at each registered guild's stored reset time: shortly before the reset it
 * takes a snapshot of the members' daily raid tickets and records the
 * members below 600; some minutes after the reset it refreshes the stored
 * reset time and decides on the weekly and monthly summaries. An in-memory
 * set of `guildId:nextRefreshTime` keys keeps a snapshot from being taken
 * twice for the same reset.
 *
 * A tick is one sequential step: `Tick` is the pure step function over
 * (now, guilds, processed set) and `TicketMonitor.CheckGuildResetTimes` the
 * loop that updates the set in place, proved to agree with it. The I/O a
 * snapshot or finalisation performs is represented by the `Action`s the
 * tick returns and by the pure stages `CollectTicketData`, `PostRefresh`.
 */
module TicketMonitor {
  import opened Js
  import opened Sorting

  const TicketThreshold: int := 600
  const CheckFrequency: int := 60 * 1000
  const CheckBeforeReset: int := 2 * 60 * 1000
  const RefreshUpdateDelay: int := 5 * 60 * 1000
  /** The `type` of a member's contribution entry that counts raid tickets. */
  const TicketContributionType: int := 2

  /** A row of the guild registry: `next_refresh_time` is epoch seconds as text. */
  datatype Guild = Guild(guildId: string, channelId: string, nextRefreshTime: string)

  datatype Contribution = Contribution(kind: int, currentValue: Option<int>)

  /** A guild member as the game-data API returns it; `memberContribution`
      may be missing. */
  datatype Member = Member(playerId: string, playerName: string, contributions: Option<seq<Contribution>>)

  /** The guild data the snapshot and the finalisation fetch: `member` and
      `nextChallengesRefresh` may be missing. */
  datatype GuildData = GuildData(name: string, members: Option<seq<Member>>, nextChallengesRefresh: Option<string>)

  datatype Violator = Violator(id: string, name: string, tickets: int)

  // ---------------------------------------------------------------------
  // Violator detection

  /** `memberContribution.find(c => c.type === 2)`. */
  function FindTicketContribution(cs: seq<Contribution>): (r: Option<Contribution>)
    ensures r.Some? ==> r.value in cs && r.value.kind == TicketContributionType
  {
    if cs == [] then None
    else if cs[0].kind == TicketContributionType then Some(cs[0])
    else FindTicketContribution(cs[1..])
  }

  /** The entry found is the first one of type 2, and there is none when no
      entry has that type. */
  lemma {:induction false} FindTicketContributionFirst(cs: seq<Contribution>)
    ensures FindTicketContribution(cs).None? <==> forall k :: 0 <= k < |cs| ==> cs[k].kind != TicketContributionType
    ensures FindTicketContribution(cs).Some? ==>
      exists k :: 0 <= k < |cs| && cs[k] == FindTicketContribution(cs).value &&
                  forall j :: 0 <= j < k ==> cs[j].kind != TicketContributionType
  {
    if cs != [] && cs[0].kind != TicketContributionType {
      var r := FindTicketContribution(cs[1..]);
      FindTicketContributionFirst(cs[1..]);
      if r.Some? {
        var k :| 0 <= k < |cs[1..]| && cs[1..][k] == r.value &&
                 forall j :: 0 <= j < k ==> cs[1..][j].kind != TicketContributionType;
        assert cs[k + 1] == r.value;
        forall j | 0 <= j < k + 1 ensures cs[j].kind != TicketContributionType {
          if j > 0 { assert cs[j] == cs[1..][j - 1]; }
        }
      } else {
        forall k | 0 <= k < |cs| ensures cs[k].kind != TicketContributionType {
          if k > 0 { assert cs[k] == cs[1..][k - 1]; }
        }
      }
    }
  }

  /** `ticketContribution?.currentValue || 0` */
  function TicketCount(m: Member): int
  {
    match m.contributions
    case None => 0
    case Some(cs) =>
      match FindTicketContribution(cs)
      case None => 0
      case Some(c) => if c.currentValue.Some? then c.currentValue.value else 0
  }

  /** A member's ticket count is the current value of their first type-2
      entry, and 0 when there is no contribution data, no such entry, or no
      current value. */
  lemma TicketCountFirst(m: Member)
    ensures m.contributions.None? ==> TicketCount(m) == 0
    ensures m.contributions.Some? ==>
      var cs := m.contributions.value;
      ((forall k :: 0 <= k < |cs| ==> cs[k].kind != TicketContributionType) ==> TicketCount(m) == 0) &&
      (forall k :: 0 <= k < |cs| && cs[k].kind == TicketContributionType &&
                   (forall j :: 0 <= j < k ==> cs[j].kind != TicketContributionType) ==>
                   TicketCount(m) == if cs[k].currentValue.Some? then cs[k].currentValue.value else 0)
  {
    if m.contributions.Some? {
      FindTicketContributionFirst(m.contributions.value);
    }
  }

  /** A member without contribution data, or without a ticket entry, counts
      as 0 tickets and is therefore a violator. */
  lemma MissingContributionIsViolation(m: Member)
    requires m.contributions.None? ||
             forall k :: 0 <= k < |m.contributions.value| ==> m.contributions.value[k].kind != TicketContributionType
    ensures TicketCount(m) == 0 && TicketCount(m) < TicketThreshold
  {
    if m.contributions.Some? {
      FindTicketContributionFirst(m.contributions.value);
    }
  }

  function ViolatorOf(m: Member): Violator
  {
    Violator(m.playerId, m.playerName, TicketCount(m))
  }

  /** The members below the threshold, in member order. */
  function Violators(members: seq<Member>): seq<Violator>
  {
    if members == [] then []
    else
      var last := members[|members| - 1];
      Violators(members[..|members| - 1]) + (if TicketCount(last) < TicketThreshold then [ViolatorOf(last)] else [])
  }

  /** `findTicketViolators`. */
  method FindTicketViolators(members: seq<Member>) returns (violators: seq<Violator>)
    ensures violators == Violators(members)
    ensures forall k :: 0 <= k < |violators| ==> violators[k].tickets < TicketThreshold
    ensures |violators| <= |members|
  {
    violators := [];
    for i := 0 to |members|
      invariant violators == Violators(members[..i])
      invariant forall k :: 0 <= k < |violators| ==> violators[k].tickets < TicketThreshold
      invariant |violators| <= i
    {
      var member := members[i];
      var ticketCount := TicketCount(member);
      if ticketCount < TicketThreshold {
        violators := violators + [Violator(member.playerId, member.playerName, ticketCount)];
      }
      assert members[..i + 1][..i] == members[..i];
    }
    assert members[..|members|] == members;
  }

  /** A member is reported iff their ticket count is strictly below 600
      (a member with exactly 600 is not); violators keep member order. */
  lemma {:induction false} ViolatorsExactly(members: seq<Member>, v: Violator)
    ensures v in Violators(members) <==>
      exists k :: 0 <= k < |members| && TicketCount(members[k]) < TicketThreshold && v == ViolatorOf(members[k])
  {
    if members != [] {
      var init := members[..|members| - 1];
      var last := members[|members| - 1];
      var tail := if TicketCount(last) < TicketThreshold then [ViolatorOf(last)] else [];
      assert Violators(members) == Violators(init) + tail;
      ViolatorsExactly(init, v);
      if v in Violators(init) {
        var k :| 0 <= k < |init| && TicketCount(init[k]) < TicketThreshold && v == ViolatorOf(init[k]);
        assert members[k] == init[k];
      }
      if exists k :: 0 <= k < |members| && TicketCount(members[k]) < TicketThreshold && v == ViolatorOf(members[k]) {
        var k :| 0 <= k < |members| && TicketCount(members[k]) < TicketThreshold && v == ViolatorOf(members[k]);
        if k < |init| {
          assert init[k] == members[k];
        } else {
          assert v in tail;
        }
      }
    }
  }

  lemma {:induction false} ViolatorsAppend(a: seq<Member>, b: seq<Member>)
    ensures Violators(a + b) == Violators(a) + Violators(b)
    decreases |b|
  {
    if b == [] {
      assert a + b == a;
    } else {
      var bInit := b[..|b| - 1];
      assert (a + b)[..|a + b| - 1] == a + bInit;
      assert (a + b)[|a + b| - 1] == b[|b| - 1];
      ViolatorsAppend(a, bInit);
    }
  }

  // ---------------------------------------------------------------------
  // Recording and notifying

  /** The record `{ [v.id]: v.tickets }` that `handleViolations` fills with
      `forEach`: a later violator with the same id overwrites an earlier one. */
  function RecordOf(violators: seq<Violator>): map<string, int>
  {
    if violators == [] then map[]
    else
      var last := violators[|violators| - 1];
      RecordOf(violators[..|violators| - 1])[last.id := last.tickets]
  }

  /** The record holds exactly the violators' ids, each with the tickets of
      the last violator carrying that id. */
  lemma {:induction false} RecordOfExactly(violators: seq<Violator>, id: string)
    ensures id in RecordOf(violators) <==> exists k :: 0 <= k < |violators| && violators[k].id == id
    ensures id in RecordOf(violators) ==>
      exists k :: 0 <= k < |violators| && violators[k].id == id && RecordOf(violators)[id] == violators[k].tickets &&
                  forall j :: k < j < |violators| ==> violators[j].id != id
  {
    if violators != [] {
      var init := violators[..|violators| - 1];
      var last := violators[|violators| - 1];
      RecordOfExactly(init, id);
      if last.id != id {
        if exists k :: 0 <= k < |violators| && violators[k].id == id {
          var k :| 0 <= k < |violators| && violators[k].id == id;
          assert init[k] == violators[k];
        }
        if id in RecordOf(init) {
          var k :| 0 <= k < |init| && init[k].id == id && RecordOf(init)[id] == init[k].tickets &&
                   forall j :: k < j < |init| ==> init[j].id != id;
          assert violators[k] == init[k];
          assert forall j :: k < j < |violators| ==> violators[j].id != id by {
            forall j | k < j < |violators| ensures violators[j].id != id {
              if j < |init| { assert violators[j] == init[j]; }
            }
          }
        }
      }
    }
  }

  /** Every recorded ticket count is below the threshold. */
  lemma RecordBelowThreshold(members: seq<Member>, id: string)
    requires id in RecordOf(Violators(members))
    ensures RecordOf(Violators(members))[id] < TicketThreshold
  {
    var vs := Violators(members);
    RecordOfExactly(vs, id);
    var k :| 0 <= k < |vs| && vs[k].id == id && RecordOf(vs)[id] == vs[k].tickets;
    ViolatorsExactly(members, vs[k]);
  }

  function TicketsKey(v: Violator): real { v.tickets as real }

  function MissingOf(v: Violator): int { TicketThreshold - v.tickets }

  /** The violation report sent to the guild's channel. */
  datatype Notification = Notification(guildName: string, ranked: seq<Violator>, totalMissing: int)

  /** `sendViolationNotification`: violators ranked by ascending tickets and
      the total of `600 - tickets` over them. */
  function ViolationNotification(guildName: string, violators: seq<Violator>): (n: Notification)
    ensures SortedBy(n.ranked, TicketsKey) && multiset(n.ranked) == multiset(violators)
    ensures n.totalMissing == SumBy(violators, MissingOf)
  {
    var sorted := SortBy(violators, TicketsKey);
    SumBySort(violators, TicketsKey, MissingOf);
    Notification(guildName, sorted, SumBy(sorted, MissingOf))
  }

  /** Every violator misses at least one ticket, so the total missing is at
      least the number of violators. */
  lemma NotificationMissingAtLeastCount(guildName: string, members: seq<Member>)
    ensures ViolationNotification(guildName, Violators(members)).totalMissing >= |Violators(members)|
  {
    var vs := Violators(members);
    forall k | 0 <= k < |vs| ensures MissingOf(vs[k]) >= 1 {
      ViolatorsExactly(members, vs[k]);
    }
    SumByLowerBound(vs, MissingOf, 1);
  }

  /** What one snapshot stores and sends. */
  datatype ViolationReport = ViolationReport(counts: map<string, int>, notice: Notification)

  /** `handleViolations`: nothing is written or sent when there are no
      violators; otherwise the id-to-tickets record and the notification. */
  method HandleViolations(guildName: string, violators: seq<Violator>) returns (report: Option<ViolationReport>)
    ensures report.None? <==> violators == []
    ensures report.Some? ==> report.value.counts == RecordOf(violators)
    ensures report.Some? ==> report.value.notice == ViolationNotification(guildName, violators)
  {
    if |violators| > 0 {
      var ticketCounts: map<string, int> := map[];
      for i := 0 to |violators|
        invariant ticketCounts == RecordOf(violators[..i])
      {
        ticketCounts := ticketCounts[violators[i].id := violators[i].tickets];
        assert violators[..i + 1][..i] == violators[..i];
      }
      assert violators[..|violators|] == violators;
      report := Some(ViolationReport(ticketCounts, ViolationNotification(guildName, violators)));
    } else {
      report := None;
    }
  }

  /** `collectTicketData` once the guild data has been fetched (None when
      the fetch failed): no report without member data. */
  method CollectTicketData(fetched: Option<GuildData>) returns (report: Option<ViolationReport>)
    ensures (fetched.None? || fetched.value.members.None?) ==> report.None?
    ensures fetched.Some? && fetched.value.members.Some? ==>
      (report.None? <==> Violators(fetched.value.members.value) == []) &&
      (report.Some? ==> report.value.counts == RecordOf(Violators(fetched.value.members.value))) &&
      (report.Some? ==> report.value.notice ==
                        ViolationNotification(fetched.value.name, Violators(fetched.value.members.value)))
  {
    if fetched.None? || fetched.value.members.None? {
      return None;
    }
    var violators := FindTicketViolators(fetched.value.members.value);
    report := HandleViolations(fetched.value.name, violators);
  }

  // ---------------------------------------------------------------------
  // Finalisation

  /** What `handlePostRefreshOperations` does after its fetch: store the new
      reset time and generate the weekly and monthly summaries. */
  datatype PostRefreshPlan = PostRefreshPlan(newRefreshTime: Option<string>, weekly: bool, monthly: bool)

  /** `handlePostRefreshOperations` and `checkAndGenerateSummaries`; whether
      today is Sunday or the last day of the month are inputs. */
  function PostRefresh(fetched: Option<GuildData>, isSunday: bool, isLastDayOfMonth: bool, force: bool): (plan: PostRefreshPlan)
    ensures plan.newRefreshTime.Some? <==>
      fetched.Some? && fetched.value.members.Some? && fetched.value.nextChallengesRefresh.Some? &&
      fetched.value.nextChallengesRefresh.value != ""
    ensures plan.newRefreshTime.Some? ==> plan.newRefreshTime == fetched.value.nextChallengesRefresh
    ensures plan.weekly <==> plan.newRefreshTime.Some? && (isSunday || force)
    ensures plan.monthly <==> plan.newRefreshTime.Some? && (isLastDayOfMonth || force)
  {
    if fetched.None? || fetched.value.members.None? then PostRefreshPlan(None, false, false)
    else
      match fetched.value.nextChallengesRefresh
      case None => PostRefreshPlan(None, false, false)
      case Some(t) =>
        if t == "" then PostRefreshPlan(None, false, false)
        else PostRefreshPlan(Some(t), isSunday || force, isLastDayOfMonth || force)
  }

  // ---------------------------------------------------------------------
  // The per-tick decision

  /** `${guild_id}:${next_refresh_time}`: when the guild id has no ":", the
      key splits back at its first ":" into the id and the reset time. */
  function Key(g: Guild): (key: string)
    ensures ':' !in g.guildId ==>
      BeforeColon(key) == g.guildId && |key| > |g.guildId| && key[|g.guildId| + 1..] == g.nextRefreshTime
  {
    var key := g.guildId + ":" + g.nextRefreshTime;
    assert key[|g.guildId| + 1..] == g.nextRefreshTime;
    if ':' in g.guildId then key
    else
      KeySplits(g.guildId, g.nextRefreshTime);
      key
  }

  /** `parseInt(next_refresh_time) * 1000`: the stored reset time, in epoch
      seconds, as milliseconds (NaN stays NaN). */
  function RefreshMillis(g: Guild): (r: Num)
    ensures r.NaN? <==> ParseIntAuto(g.nextRefreshTime).NaN?
    ensures r.Int? ==> r.i == ParseIntAuto(g.nextRefreshTime).i * 1000 && r.i % 1000 == 0
  {
    match ParseIntAuto(g.nextRefreshTime)
    case NaN => NaN
    case Int(t) => Int(t * 1000)
  }

  /** `0 < refreshTime - now <= 2 minutes`: the reset is at most two minutes
      ahead; never for a reset time that does not parse. */
  predicate InSnapshotWindow(now: int, g: Guild)
  {
    RefreshMillis(g).Int? && 0 < RefreshMillis(g).i - now <= CheckBeforeReset
  }

  /** `now - refreshTime >= 5 minutes`: the reset is at least five minutes
      past; never for a reset time that does not parse. */
  predicate InFinalizeWindow(now: int, g: Guild)
  {
    RefreshMillis(g).Int? && now - RefreshMillis(g).i >= RefreshUpdateDelay
  }

  /** A decimal reset time of n seconds is n * 1000 milliseconds. */
  lemma RefreshMillisDecimal(g: Guild, n: nat)
    requires g.nextRefreshTime == DecimalString(n)
    ensures RefreshMillis(g) == Int(n * 1000)
  {
    ParseAutoDecimalString(n);
  }

  /** The two windows as ranges of the clock: for a stored reset of `n`
      epoch seconds, snapshots are due from two minutes before the reset
      (exclusive of the reset itself) and finalisation from five minutes
      after it on; a reset time that does not parse is in neither. */
  lemma WindowRanges(now: int, g: Guild, n: nat)
    requires g.nextRefreshTime == DecimalString(n)
    ensures InSnapshotWindow(now, g) <==> n * 1000 - CheckBeforeReset <= now < n * 1000
    ensures InFinalizeWindow(now, g) <==> now >= n * 1000 + RefreshUpdateDelay
  {
    RefreshMillisDecimal(g, n);
  }

  lemma UnparsedInNoWindow(now: int, g: Guild)
    requires ParseIntAuto(g.nextRefreshTime).NaN?
    ensures !InSnapshotWindow(now, g) && !InFinalizeWindow(now, g)
  {
  }

  datatype Action = Snapshot(guild: Guild) | Finalize(guild: Guild, forceSummaries: bool)

  datatype TickResult = TickResult(actions: seq<Action>, processed: set<string>)

  /** One pass of the guild loop body, by case. The two windows cannot
      overlap (`WindowsDisjoint`), so at most one action is due per guild. */
  function GuildStep(now: int, g: Guild, processed: set<string>, devMode: bool): (r: TickResult)
    ensures |r.actions| <= 2
    ensures !devMode ==> |r.actions| <= 1
  {
    if devMode then TickResult([Snapshot(g), Finalize(g, true)], processed)
    else if InFinalizeWindow(now, g) then TickResult([Finalize(g, false)], processed - {Key(g)})
    else if InSnapshotWindow(now, g) then
      TickResult(if Key(g) in processed then [] else [Snapshot(g)], processed + {Key(g)})
    else TickResult([], processed)
  }

  /** In production a guild is snapshotted iff it is in the snapshot window
      and its key is not yet processed; finalised (never with forced
      summaries) iff it is in the finalise window; the key is added by the
      snapshot window and removed by the finalise window. */
  lemma GuildStepProduction(now: int, g: Guild, processed: set<string>)
    ensures var r := GuildStep(now, g, processed, false);
      (Snapshot(g) in r.actions <==> InSnapshotWindow(now, g) && Key(g) !in processed) &&
      (Finalize(g, false) in r.actions <==> InFinalizeWindow(now, g)) &&
      (forall a :: a in r.actions ==> a.guild == g && (a.Finalize? ==> !a.forceSummaries)) &&
      (Key(g) in r.processed <==> !InFinalizeWindow(now, g) && (InSnapshotWindow(now, g) || Key(g) in processed)) &&
      (forall x :: x != Key(g) ==> (x in r.processed <==> x in processed))
  {
    WindowsDisjoint(now, g);
  }

  /** A production step as the loop body performs it: the snapshot check
      first, then the finalise check, each acting on what the first left. */
  lemma GuildStepShape(now: int, g: Guild, processed: set<string>)
    ensures var snap := InSnapshotWindow(now, g) && Key(g) !in processed;
            var mid := if snap then processed + {Key(g)} else processed;
            var fin := InFinalizeWindow(now, g);
      GuildStep(now, g, processed, false) ==
      TickResult((if snap then [Snapshot(g)] else []) + (if fin then [Finalize(g, false)] else []),
                 if fin then mid - {Key(g)} else mid)
  {
    WindowsDisjoint(now, g);
    StepInOrder(InSnapshotWindow(now, g), InFinalizeWindow(now, g), Key(g), processed,
                Snapshot(g), Finalize(g, false));
  }

  /** The branch chain of one production step, on the window tests alone:
      with the windows disjoint, testing the finalise window first is the
      same as the snapshot check followed by the finalise check. */
  lemma StepInOrder(snap: bool, fin: bool, key: string, processed: set<string>, s: Action, f: Action)
    requires !(snap && fin)
    ensures (if fin then TickResult([f], processed - {key})
             else if snap then TickResult(if key in processed then [] else [s], processed + {key})
             else TickResult([], processed)) ==
            TickResult((if snap && key !in processed then [s] else []) + (if fin then [f] else []),
                       var mid := if snap && key !in processed then processed + {key} else processed;
                       if fin then mid - {key} else mid)
  {
    if snap && key in processed {
      assert processed + {key} == processed;
    }
  }

  /** `checkGuildResetTimes` as a step function: the guilds in order, each
      seeing the set as the guilds before it left it. */
  function Tick(now: int, guilds: seq<Guild>, processed: set<string>, devMode: bool): (r: TickResult)
    ensures |r.actions| <= (if devMode then 2 else 1) * |guilds|
    ensures forall a :: a in r.actions ==> a.guild in guilds
    ensures devMode ==> r.processed == processed
    ensures !devMode ==> forall a :: a in r.actions ==> a.Snapshot? || !a.forceSummaries
  {
    if guilds == [] then TickResult([], processed)
    else
      var before := Tick(now, guilds[..|guilds| - 1], processed, devMode);
      var step := GuildStep(now, guilds[|guilds| - 1], before.processed, devMode);
      TickResult(before.actions + step.actions, step.processed)
  }

  // ---------------------------------------------------------------------
  // The service object

  class TicketMonitorService {
    /** `processedRefreshTimes` */
    var processed: set<string>
    /** `checkInterval !== null` */
    var intervalActive: bool
    /** `NODE_ENV === "development"` */
    const devMode: bool

    constructor(devMode: bool)
      ensures this.devMode == devMode && processed == {} && !intervalActive
    {
      this.devMode := devMode;
      processed := {};
      intervalActive := false;
    }

    /** `start`: in development one tick runs at once; in production the
        interval is armed and no tick runs yet. */
    method Start(now: int, guilds: seq<Guild>) returns (actions: seq<Action>)
      modifies this
      ensures devMode ==> intervalActive == old(intervalActive) &&
                          TickResult(actions, processed) == Tick(now, guilds, old(processed), devMode)
      ensures !devMode ==> intervalActive && actions == [] && processed == old(processed)
    {
      if devMode {
        actions := CheckGuildResetTimes(now, guilds);
      } else {
        intervalActive := true;
        actions := [];
      }
    }

    /** `stop`: clears the interval and forgets every processed key. */
    method Stop()
      modifies this
      ensures processed == {} && !intervalActive
    {
      intervalActive := false;
      processed := {};
    }

    /** The production body of the guild loop for one guild: snapshot it
        when its reset is at most two minutes away and its key is new, and
        finalise it (forgetting the key) once the reset is five minutes
        past. */
    method ProcessGuild(now: int, guild: Guild) returns (step: seq<Action>)
      modifies this`processed
      ensures TickResult(step, processed) == GuildStep(now, guild, old(processed), false)
    {
      var refreshTime := RefreshMillis(guild);
      var refreshTimeKey := guild.guildId + ":" + guild.nextRefreshTime;
      step := [];
      if refreshTime.Int? {
        var timeUntilReset := refreshTime.i - now;
        if timeUntilReset > 0 && timeUntilReset <= CheckBeforeReset && refreshTimeKey !in processed {
          processed := processed + {refreshTimeKey};
          step := step + [Snapshot(guild)];
        }
        var timeSinceReset := now - refreshTime.i;
        if timeSinceReset >= RefreshUpdateDelay {
          step := step + [Finalize(guild, false)];
          processed := processed - {refreshTimeKey};
        }
      }
      GuildStepShape(now, guild, old(processed));
    }

    /** `checkGuildResetTimes` for the guild list read at time `now`. */
    method CheckGuildResetTimes(now: int, guilds: seq<Guild>) returns (actions: seq<Action>)
      modifies this`processed
      ensures TickResult(actions, processed) == Tick(now, guilds, old(processed), devMode)
    {
      actions := [];
      for i := 0 to |guilds|
        invariant TickResult(actions, processed) == Tick(now, guilds[..i], old(processed), devMode)
      {
        var guild := guilds[i];
        assert guilds[..i + 1][..i] == guilds[..i];
        if devMode {
          actions := actions + [Snapshot(guild), Finalize(guild, true)];
          continue;
        }
        var step := ProcessGuild(now, guild);
        actions := actions + step;
      }
      assert guilds[..|guilds|] == guilds;
    }
  }

  // ---------------------------------------------------------------------
  // Properties of a tick

  /** The assumption under which a key names one guild and one reset: no
      guild id contains ':'. The source does not check this; the lemmas
      that need it say so in their requires. */
  predicate PlainIds(guilds: seq<Guild>)
  {
    forall k :: 0 <= k < |guilds| ==> ':' !in guilds[k].guildId
  }

  /** The text before the first ':' of a key. */
  function BeforeColon(s: string): (r: string)
    ensures |r| <= |s| && r == s[..|r|] && ':' !in r
  {
    if s == [] || s[0] == ':' then [] else [s[0]] + BeforeColon(s[1..])
  }

  /** A key splits back, at its first ':', into the guild id and the
      refresh time it was built from, whenever the id has no ':'. */
  lemma {:induction false} KeySplits(id: string, rest: string)
    requires ':' !in id
    ensures BeforeColon(id + ":" + rest) == id
  {
    if id != [] {
      assert (id + ":" + rest)[1..] == id[1..] + ":" + rest;
      KeySplits(id[1..], rest);
    } else {
      assert (id + ":" + rest)[0] == ':';
    }
  }

  lemma KeyInjective(g: Guild, h: Guild)
    requires ':' !in g.guildId && ':' !in h.guildId
    requires Key(g) == Key(h)
    ensures g.guildId == h.guildId && g.nextRefreshTime == h.nextRefreshTime
  {
    KeySplits(g.guildId, g.nextRefreshTime);
    KeySplits(h.guildId, h.nextRefreshTime);
    var n := |g.guildId| + 1;
    assert g.nextRefreshTime == Key(g)[n..];
    assert h.nextRefreshTime == Key(h)[n..];
  }

  /** Keys of the guilds that satisfy `p`. */
  function KeysWhere(guilds: seq<Guild>, p: Guild -> bool): set<string>
  {
    set k | 0 <= k < |guilds| && p(guilds[k]) :: Key(guilds[k])
  }

  /** Keys of the guilds this tick snapshots or finalises, by window. */
  function SnapshotKeys(now: int, guilds: seq<Guild>): set<string>
  {
    KeysWhere(guilds, g => InSnapshotWindow(now, g))
  }

  function FinalizeKeys(now: int, guilds: seq<Guild>): set<string>
  {
    KeysWhere(guilds, g => InFinalizeWindow(now, g))
  }

  /** Two guild rows with the same key are in the same window. */
  lemma SameKeySameWindows(now: int, g: Guild, h: Guild)
    requires ':' !in g.guildId && ':' !in h.guildId && Key(g) == Key(h)
    ensures InSnapshotWindow(now, g) == InSnapshotWindow(now, h)
    ensures InFinalizeWindow(now, g) == InFinalizeWindow(now, h)
  {
    KeyInjective(g, h);
  }

  lemma PlainIdsInit(guilds: seq<Guild>)
    requires PlainIds(guilds) && guilds != []
    ensures PlainIds(guilds[..|guilds| - 1])
  {
    var init := guilds[..|guilds| - 1];
    forall k | 0 <= k < |init| ensures ':' !in init[k].guildId { assert init[k] == guilds[k]; }
  }

  lemma KeysWhereSnoc(guilds: seq<Guild>, p: Guild -> bool)
    requires guilds != []
    ensures var g := guilds[|guilds| - 1];
      KeysWhere(guilds, p) == KeysWhere(guilds[..|guilds| - 1], p) + (if p(g) then {Key(g)} else {})
  {
    var init := guilds[..|guilds| - 1];
    forall k | 0 <= k < |init| ensures guilds[k] == init[k] { }
  }

  lemma SnapshotKeysSnoc(now: int, guilds: seq<Guild>)
    requires guilds != []
    ensures var g := guilds[|guilds| - 1];
      SnapshotKeys(now, guilds) ==
      SnapshotKeys(now, guilds[..|guilds| - 1]) + (if InSnapshotWindow(now, g) then {Key(g)} else {})
  {
    KeysWhereSnoc(guilds, g => InSnapshotWindow(now, g));
  }

  lemma FinalizeKeysSnoc(now: int, guilds: seq<Guild>)
    requires guilds != []
    ensures var g := guilds[|guilds| - 1];
      FinalizeKeys(now, guilds) ==
      FinalizeKeys(now, guilds[..|guilds| - 1]) + (if InFinalizeWindow(now, g) then {Key(g)} else {})
  {
    KeysWhereSnoc(guilds, g => InFinalizeWindow(now, g));
  }

  /** No key is due for both a snapshot and a finalisation in one tick. */
  lemma WindowKeysDisjoint(now: int, guilds: seq<Guild>)
    requires PlainIds(guilds)
    ensures SnapshotKeys(now, guilds) * FinalizeKeys(now, guilds) == {}
  {
    forall x | x in SnapshotKeys(now, guilds) && x in FinalizeKeys(now, guilds) ensures false {
      var i :| 0 <= i < |guilds| && InSnapshotWindow(now, guilds[i]) && x == Key(guilds[i]);
      var j :| 0 <= j < |guilds| && InFinalizeWindow(now, guilds[j]) && x == Key(guilds[j]);
      SameKeySameWindows(now, guilds[i], guilds[j]);
      WindowsDisjoint(now, guilds[i]);
    }
  }

  /** In production, the processed set after a tick is the set before it,
      plus the keys of guilds in the snapshot window, minus the keys of
      guilds in the finalise window. */
  lemma {:induction false} TickProcessed(now: int, guilds: seq<Guild>, processed: set<string>)
    requires PlainIds(guilds)
    ensures Tick(now, guilds, processed, false).processed ==
            (processed + SnapshotKeys(now, guilds)) - FinalizeKeys(now, guilds)
  {
    if guilds != [] {
      var init := guilds[..|guilds| - 1];
      var g := guilds[|guilds| - 1];
      PlainIdsInit(guilds);
      TickProcessed(now, init, processed);
      SnapshotKeysSnoc(now, guilds);
      FinalizeKeysSnoc(now, guilds);
      WindowKeysDisjoint(now, guilds);
      WindowsDisjoint(now, g);
      if InSnapshotWindow(now, g) {
        assert Key(g) in SnapshotKeys(now, guilds);
        assert Key(g) !in FinalizeKeys(now, guilds);
      }
    }
  }

  /** Dedup within a tick: a key already in the set is never snapshotted,
      in production. */
  lemma {:induction false} NoSnapshotOfProcessedKey(now: int, guilds: seq<Guild>, processed: set<string>, g: Guild)
    requires PlainIds(guilds) && ':' !in g.guildId
    requires Key(g) in processed
    ensures forall a :: a in Tick(now, guilds, processed, false).actions ==> !(a.Snapshot? && Key(a.guild) == Key(g))
  {
    if guilds != [] {
      var init := guilds[..|guilds| - 1];
      var h := guilds[|guilds| - 1];
      assert PlainIds(init) by {
        forall k | 0 <= k < |init| ensures ':' !in init[k].guildId { assert init[k] == guilds[k]; }
      }
      NoSnapshotOfProcessedKey(now, init, processed, g);
      var before := Tick(now, init, processed, false);
      if Key(h) == Key(g) && InSnapshotWindow(now, h) {
        TickProcessed(now, init, processed);
        FinalizeKeysSnoc(now, guilds);
        SnapshotKeysSnoc(now, guilds);
        WindowKeysDisjoint(now, guilds);
        assert Key(h) in before.processed;
      }
      var step := GuildStep(now, h, before.processed, false);
      forall a | a in step.actions ensures !(a.Snapshot? && Key(a.guild) == Key(g)) {
        assert a.guild == h;
      }
    }
  }

  /** Dedup across ticks: once a guild's reset has been snapshotted, a later
      production tick (at any time, over any guild list) never snapshots the
      same key again. */
  lemma SnapshotOnce(now1: int, now2: int, guilds1: seq<Guild>, guilds2: seq<Guild>, processed: set<string>, g: Guild)
    requires PlainIds(guilds1) && PlainIds(guilds2)
    requires Snapshot(g) in Tick(now1, guilds1, processed, false).actions
    ensures var after := Tick(now1, guilds1, processed, false).processed;
      forall a :: a in Tick(now2, guilds2, after, false).actions ==> !(a.Snapshot? && Key(a.guild) == Key(g))
  {
    var k := SnapshotSource(now1, guilds1, processed, g);
    TickProcessed(now1, guilds1, processed);
    var after := Tick(now1, guilds1, processed, false).processed;
    assert Key(g) in SnapshotKeys(now1, guilds1);
    assert Key(g) in after;
    NoSnapshotOfProcessedKey(now2, guilds2, after, g);
  }

  /** A snapshot action comes from a guild of the list that is in the
      snapshot window. */
  lemma {:induction false} SnapshotSource(now: int, guilds: seq<Guild>, processed: set<string>, g: Guild) returns (k: nat)
    requires Snapshot(g) in Tick(now, guilds, processed, false).actions
    ensures k < |guilds| && guilds[k] == g && InSnapshotWindow(now, g)
  {
    var init := guilds[..|guilds| - 1];
    var h := guilds[|guilds| - 1];
    var before := Tick(now, init, processed, false);
    var step := GuildStep(now, h, before.processed, false);
    if Snapshot(g) in before.actions {
      k := SnapshotSource(now, init, processed, g);
      assert guilds[k] == init[k];
    } else {
      assert Snapshot(g) in step.actions;
      k := |guilds| - 1;
    }
  }

  /** In production a guild row is never both snapshotted and finalised in
      one tick. */
  lemma WindowsDisjoint(now: int, g: Guild)
    ensures !(InSnapshotWindow(now, g) && InFinalizeWindow(now, g))
  {
    if RefreshMillis(g).Int? {
      var t := RefreshMillis(g).i;
      assert !(0 < t - now && now - t >= RefreshUpdateDelay);
    }
  }
}
