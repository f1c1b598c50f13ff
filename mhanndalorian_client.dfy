/**
 * The territory-battle response transformer and the request payload
 * defaults of the game-data HTTP client
 * (src/services/mhanndalorian/mhanndalorian-client.ts, with the target
 * records of src/model/territory-battle.ts). The HTTP request, the HMAC
 * signature and the JSON decoding are not part of this model: a decoded
 * response is the input.
 */
module MhanndalorianClient {
  import opened Js

  // ---------------------------------------------------------------------
  // Raw response records (optional fields as Option)

  datatype RawZoneStatus = RawZoneStatus(zoneId: string, zoneState: int, score: string, channelId: string,
                                         commandMessage: Option<string>, commandState: int)
  datatype RawConflictZone = RawConflictZone(zoneStatus: RawZoneStatus)
  datatype RawStrikeZone = RawStrikeZone(playersParticipated: int, zoneStatus: RawZoneStatus)
  datatype RawUnit = RawUnit(unitIdentifier: string, level: int, memberId: string, tier: int, unitRelicTier: int)
  datatype RawSquad = RawSquad(unit: seq<RawUnit>, id: string)
  datatype RawPlatoon = RawPlatoon(squad: seq<RawSquad>, id: string)
  datatype RawReconZone = RawReconZone(platoon: seq<RawPlatoon>, zoneStatus: RawZoneStatus)
  datatype RawTbStatus = RawTbStatus(conflictZoneStatus: Option<seq<RawConflictZone>>,
                                     strikeZoneStatus: Option<seq<RawStrikeZone>>,
                                     reconZoneStatus: Option<seq<RawReconZone>>)
  datatype TbResponse = TbResponse(code: int, territoryBattleStatus: Option<RawTbStatus>)

  // ---------------------------------------------------------------------
  // The structured model

  datatype ZoneStatus = ZoneStatus(zoneId: string, zoneState: int, score: Num, channelId: string,
                                   commandMessage: string, commandState: int)
  datatype ConflictZone = ConflictZone(status: ZoneStatus)
  datatype StrikeZone = StrikeZone(playersParticipated: int, status: ZoneStatus)
  datatype PlatoonUnit = PlatoonUnit(unitIdentifier: string, level: int, memberId: string, tier: int, relicTier: int)
  datatype Squad = Squad(id: string, units: seq<PlatoonUnit>)
  datatype Platoon = Platoon(id: string, squads: seq<Squad>)
  datatype ReconZone = ReconZone(platoons: seq<Platoon>, status: ZoneStatus)
  datatype TerritoryBattle = TerritoryBattle(isActive: bool, conflictZones: seq<ConflictZone>,
                                             strikeZones: seq<StrikeZone>, reconZones: seq<ReconZone>)

  // ---------------------------------------------------------------------
  // The transforms

  /** The status block every zone transform builds: the score is read by
      `parseInt` without a radix (decimal, or hexadecimal after "0x") and a
      missing command message becomes "". */
  function TransformStatus(z: RawZoneStatus): (s: ZoneStatus)
    ensures s.score == ParseIntAuto(z.score)
    ensures !HexMarked(Unsigned(z.score)) ==> s.score == ParseInt(z.score)
    ensures z.commandMessage.None? ==> s.commandMessage == ""
    ensures z.commandMessage.Some? ==> s.commandMessage == z.commandMessage.value
  {
    ZoneStatus(z.zoneId, z.zoneState, ParseIntAuto(z.score), z.channelId,
               if z.commandMessage.Some? then z.commandMessage.value else "", z.commandState)
  }

  function TransformUnit(u: RawUnit): PlatoonUnit
  {
    PlatoonUnit(u.unitIdentifier, u.level, u.memberId, u.tier, u.unitRelicTier)
  }

  /** `transformUnits` */
  function TransformUnits(units: seq<RawUnit>): (r: seq<PlatoonUnit>)
    ensures |r| == |units|
  {
    seq(|units|, i requires 0 <= i < |units| => TransformUnit(units[i]))
  }

  /** `transformSquads` */
  function TransformSquads(squads: seq<RawSquad>): (r: seq<Squad>)
    ensures |r| == |squads|
  {
    seq(|squads|, i requires 0 <= i < |squads| => Squad(squads[i].id, TransformUnits(squads[i].unit)))
  }

  /** `transformPlatoons` */
  function TransformPlatoons(platoons: seq<RawPlatoon>): (r: seq<Platoon>)
    ensures |r| == |platoons|
  {
    seq(|platoons|, i requires 0 <= i < |platoons| => Platoon(platoons[i].id, TransformSquads(platoons[i].squad)))
  }

  /** `transformConflictZones` */
  function TransformConflictZones(zones: seq<RawConflictZone>): (r: seq<ConflictZone>)
    ensures |r| == |zones|
  {
    seq(|zones|, i requires 0 <= i < |zones| => ConflictZone(TransformStatus(zones[i].zoneStatus)))
  }

  /** `transformStrikeZones` */
  function TransformStrikeZones(zones: seq<RawStrikeZone>): (r: seq<StrikeZone>)
    ensures |r| == |zones|
  {
    seq(|zones|, i requires 0 <= i < |zones| =>
      StrikeZone(zones[i].playersParticipated, TransformStatus(zones[i].zoneStatus)))
  }

  /** `transformReconZones` */
  function TransformReconZones(zones: seq<RawReconZone>): (r: seq<ReconZone>)
    ensures |r| == |zones|
  {
    seq(|zones|, i requires 0 <= i < |zones| =>
      ReconZone(TransformPlatoons(zones[i].platoon), TransformStatus(zones[i].zoneStatus)))
  }

  function OrEmpty<T>(o: Option<seq<T>>): seq<T>
  {
    if o.Some? then o.value else []
  }

  /** `transformTBResponse`: a response without a battle status is an
      inactive battle with no zones; a present status is active, even with
      no zones, and each missing zone list becomes empty. */
  function TransformTbResponse(response: TbResponse): (tb: TerritoryBattle)
    ensures tb.isActive <==> response.territoryBattleStatus.Some?
    ensures !tb.isActive ==> tb.conflictZones == [] && tb.strikeZones == [] && tb.reconZones == []
    ensures tb.isActive ==>
      |tb.conflictZones| == |OrEmpty(response.territoryBattleStatus.value.conflictZoneStatus)| &&
      |tb.strikeZones| == |OrEmpty(response.territoryBattleStatus.value.strikeZoneStatus)| &&
      |tb.reconZones| == |OrEmpty(response.territoryBattleStatus.value.reconZoneStatus)|
  {
    match response.territoryBattleStatus
    case None => TerritoryBattle(false, [], [], [])
    case Some(status) =>
      TerritoryBattle(true,
                      TransformConflictZones(OrEmpty(status.conflictZoneStatus)),
                      TransformStrikeZones(OrEmpty(status.strikeZoneStatus)),
                      TransformReconZones(OrEmpty(status.reconZoneStatus)))
  }

  // ---------------------------------------------------------------------
  // Inverses: the platoon structure is carried over without loss

  function UntransformUnit(u: PlatoonUnit): RawUnit
  {
    RawUnit(u.unitIdentifier, u.level, u.memberId, u.tier, u.relicTier)
  }

  function UntransformSquads(squads: seq<Squad>): seq<RawSquad>
  {
    seq(|squads|, i requires 0 <= i < |squads| =>
      RawSquad(seq(|squads[i].units|, j requires 0 <= j < |squads[i].units| => UntransformUnit(squads[i].units[j])),
               squads[i].id))
  }

  function UntransformPlatoons(platoons: seq<Platoon>): seq<RawPlatoon>
  {
    seq(|platoons|, i requires 0 <= i < |platoons| => RawPlatoon(UntransformSquads(platoons[i].squads), platoons[i].id))
  }

  /** Every level of the platoon tree (platoons, squads, units) keeps its
      length, its order and every field: mapping back gives the raw tree,
      with `relicTier` returning to `unitRelicTier`. */
  lemma PlatoonsRoundTrip(platoons: seq<RawPlatoon>)
    ensures UntransformPlatoons(TransformPlatoons(platoons)) == platoons
  {
    forall i | 0 <= i < |platoons|
      ensures UntransformSquads(TransformSquads(platoons[i].squad)) == platoons[i].squad
    {
      var squads := platoons[i].squad;
      forall j | 0 <= j < |squads|
        ensures UntransformSquads(TransformSquads(squads))[j] == squads[j]
      {
        assert TransformSquads(squads)[j].units == TransformUnits(squads[j].unit);
        assert UntransformSquads(TransformSquads(squads))[j].unit == squads[j].unit;
      }
    }
  }

  /** The raw text of a parsed score, as the game writes it. */
  function ScoreText(n: Num): string
  {
    match n
    case NaN => "NaN"
    case Int(i) => if i >= 0 then DecimalString(i) else "-" + DecimalString(0 - i)
  }

  function UntransformStatus(s: ZoneStatus): RawZoneStatus
  {
    RawZoneStatus(s.zoneId, s.zoneState, ScoreText(s.score), s.channelId,
                  if s.commandMessage == "" then None else Some(s.commandMessage), s.commandState)
  }

  /** A zone status whose score is a canonical decimal number and whose
      command message is absent or non-empty survives the transform
      unchanged; the only information lost is the score's spelling and the
      difference between an absent and an empty command message. */
  lemma StatusRoundTrip(z: RawZoneStatus, n: nat)
    requires z.score == DecimalString(n)
    requires z.commandMessage != Some("")
    ensures TransformStatus(z).score == Int(n)
    ensures UntransformStatus(TransformStatus(z)) == z
  {
    ParseAutoDecimalString(n);
  }

  /** Each zone transform keeps the zones in order, keeps
      `playersParticipated`, and builds each status with `TransformStatus`. */
  lemma ZonesPointwise(status: RawTbStatus, k: nat)
    ensures var tb := TransformTbResponse(TbResponse(0, Some(status)));
      (k < |tb.conflictZones| ==> tb.conflictZones[k].status == TransformStatus(OrEmpty(status.conflictZoneStatus)[k].zoneStatus)) &&
      (k < |tb.strikeZones| ==> tb.strikeZones[k] == StrikeZone(OrEmpty(status.strikeZoneStatus)[k].playersParticipated,
                                                                TransformStatus(OrEmpty(status.strikeZoneStatus)[k].zoneStatus))) &&
      (k < |tb.reconZones| ==> tb.reconZones[k] == ReconZone(TransformPlatoons(OrEmpty(status.reconZoneStatus)[k].platoon),
                                                             TransformStatus(OrEmpty(status.reconZoneStatus)[k].zoneStatus)))
  {
  }

  // ---------------------------------------------------------------------
  // Request payloads

  /** The client's configuration; `baseUrl` is not modelled. */
  datatype Config = Config(apiKey: string, discordId: string, allyCode: string)

  datatype Payload = Payload(allyCode: string, userDiscordId: string, enums: bool)

  /** `allyCode || this.allyCode`: the argument unless it is absent or empty. */
  function DefaultedAllyCode(config: Config, allyCode: Option<string>): (code: string)
    ensures allyCode.Some? && allyCode.value != "" ==> code == allyCode.value
    ensures allyCode.None? || allyCode.value == "" ==> code == config.allyCode
  {
    if allyCode.Some? && allyCode.value != "" then allyCode.value else config.allyCode
  }

  /** The payload of `getPlayer` and of `getTB` (the two are built alike). */
  function RequestPayload(config: Config, allyCode: Option<string>, enums: bool): (p: Payload)
    ensures p.allyCode == DefaultedAllyCode(config, allyCode)
    ensures p.userDiscordId == config.discordId && p.enums == enums
  {
    Payload(DefaultedAllyCode(config, allyCode), config.discordId, enums)
  }
}
