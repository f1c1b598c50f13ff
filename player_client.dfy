/**
 * The player table client (src/db/player-client.ts): the argument guards of
 * `addUser`, `getPlayer` and `removeAllyCode`, the NULL-to-empty mapping of
 * the alternate codes, and the record update of `removeAllyCode`.
 *
 * The `players` table is the store's `table`, a map from discord id to row;
 * `ADD_USER` is an insert-or-update of one row. The SQL text, the connection
 * pool and database errors are not part of this model.
 */
module PlayerClient {
  import opened Js

  /** A `players` row; `alt_ally_codes` may be NULL. */
  datatype PlayerRow = PlayerRow(allyCode: string, altAllyCodes: Option<seq<string>>)

  /** The `Player` record `getPlayer` hands back. */
  datatype Player = Player(allyCode: string, altAllyCodes: seq<string>)

  /** What a caller passes to `addUser` and `removeAllyCode`; a missing
      field is `None`. */
  datatype DiscordPlayer = DiscordPlayer(discordId: Option<string>, allyCode: Option<string>,
                                         altAllyCodes: Option<seq<string>>)

  /** A truthy string: present and non-empty. */
  predicate Present(s: Option<string>)
  {
    s.Some? && s.value != ""
  }

  /** `x ?? []` */
  function OrEmpty(codes: Option<seq<string>>): (r: seq<string>)
    ensures codes.Some? ==> r == codes.value
    ensures codes.None? ==> r == []
  {
    if codes.Some? then codes.value else []
  }

  // ---------------------------------------------------------------------
  // The table as a value

  /** `ADD_USER`: insert the row, or replace the row of that discord id. */
  function Upsert(table: map<string, PlayerRow>, id: string, allyCode: string, alts: seq<string>)
    : (t: map<string, PlayerRow>)
    ensures t.Keys == table.Keys + {id}
    ensures t[id] == PlayerRow(allyCode, Some(alts))
    ensures forall other :: other in table && other != id ==> t[other] == table[other]
  {
    table[id := PlayerRow(allyCode, Some(alts))]
  }

  /** `getPlayer`: nothing for an empty id or a missing row; a NULL list of
      alternates reads as []. */
  function Lookup(table: map<string, PlayerRow>, userId: string): (p: Option<Player>)
    ensures p.Some? <==> userId != "" && userId in table
    ensures p.Some? ==> p.value.allyCode == table[userId].allyCode
    ensures p.Some? && table[userId].altAllyCodes.None? ==> p.value.altAllyCodes == []
    ensures p.Some? && table[userId].altAllyCodes.Some? ==> p.value.altAllyCodes == table[userId].altAllyCodes.value
  {
    if userId == "" || userId !in table then None
    else Some(Player(table[userId].allyCode, OrEmpty(table[userId].altAllyCodes)))
  }

  /** Reading a row back right after writing it gives what was written. */
  lemma LookupAfterUpsert(table: map<string, PlayerRow>, id: string, allyCode: string, alts: seq<string>, other: string)
    requires id != ""
    ensures Lookup(Upsert(table, id, allyCode, alts), id) == Some(Player(allyCode, alts))
    ensures other != id ==> Lookup(Upsert(table, id, allyCode, alts), other) == Lookup(table, other)
  {
  }

  // ---------------------------------------------------------------------
  // The record update of `removeAllyCode`

  /** `codes.filter(c => c !== code)`: every occurrence of `code` dropped,
      the other codes kept in order. */
  function Without(codes: seq<string>, code: string): (r: seq<string>)
    ensures code !in r
    ensures forall c :: c != code ==> (c in r <==> c in codes)
    ensures |r| <= |codes|
  {
    if codes == [] then []
    else (if codes[0] == code then [] else [codes[0]]) + Without(codes[1..], code)
  }

  /** Filtering distributes over concatenation, so it keeps the order. */
  lemma {:induction false} WithoutAppend(a: seq<string>, b: seq<string>, code: string)
    ensures Without(a + b, code) == Without(a, code) + Without(b, code)
  {
    if a == [] {
      assert a + b == b;
    } else {
      assert (a + b)[0] == a[0];
      assert (a + b)[1..] == a[1..] + b;
      WithoutAppend(a[1..], b, code);
    }
  }

  /** Filtering out a code that is not there changes nothing; otherwise the
      list gets shorter by exactly the number of occurrences. */
  lemma {:induction false} WithoutCount(codes: seq<string>, code: string)
    ensures |Without(codes, code)| == |codes| - multiset(codes)[code]
    ensures code !in codes ==> Without(codes, code) == codes
  {
    if codes != [] {
      WithoutCount(codes[1..], code);
      assert codes == [codes[0]] + codes[1..];
      assert multiset(codes) == multiset{codes[0]} + multiset(codes[1..]);
    }
  }

  /** The row `removeAllyCode` writes back: the primary becomes "" when it is
      the code and is kept otherwise; the alternates lose the code only when
      they contain it; a NULL list is written as []. */
  function RemovedRow(row: PlayerRow, code: string): (r: PlayerRow)
    ensures r.altAllyCodes.Some?
    ensures row.allyCode == code ==> r.allyCode == ""
    ensures row.allyCode != code ==> r.allyCode == row.allyCode
    ensures code !in r.altAllyCodes.value
    ensures forall c :: c != code ==>
      (c in r.altAllyCodes.value <==> row.altAllyCodes.Some? && c in row.altAllyCodes.value)
  {
    var primary := if code == row.allyCode then "" else row.allyCode;
    var alts := if row.altAllyCodes.Some? && code in row.altAllyCodes.value
                then Some(Without(row.altAllyCodes.value, code))
                else row.altAllyCodes;
    PlayerRow(primary, Some(OrEmpty(alts)))
  }

  /** The alternates written back are the stored ones with every occurrence
      of the code filtered out, in their stored order. */
  lemma RemovedRowAlts(row: PlayerRow, code: string)
    requires row.altAllyCodes.Some?
    ensures RemovedRow(row, code).altAllyCodes.value == Without(row.altAllyCodes.value, code)
  {
    WithoutCount(row.altAllyCodes.value, code);
  }

  /** After a removal the player's record no longer holds the code, neither
      as the primary nor among the alternates. */
  lemma RemovedCodeGone(table: map<string, PlayerRow>, id: string, code: string)
    requires id != "" && id in table && code != ""
    ensures var p := Lookup(table[id := RemovedRow(table[id], code)], id);
      p.Some? && p.value.allyCode != code && code !in p.value.altAllyCodes
  {
  }

  // ---------------------------------------------------------------------
  // The client over its table

  class PlayerStore {
    var table: map<string, PlayerRow>

    constructor(table: map<string, PlayerRow>)
      ensures this.table == table
    {
      this.table := table;
    }

    /** `addUser`: refuses, without a query, a player with no discord id or
        no ally code; otherwise writes the row, absent alternates as []. */
    method AddUser(player: DiscordPlayer) returns (ok: bool)
      modifies this
      ensures ok <==> Present(player.discordId) && Present(player.allyCode)
      ensures ok ==> table == Upsert(old(table), player.discordId.value, player.allyCode.value,
                                     OrEmpty(player.altAllyCodes))
      ensures !ok ==> table == old(table)
    {
      if player.discordId.None? || player.discordId.value == "" ||
         player.allyCode.None? || player.allyCode.value == "" {
        return false;
      }
      table := table[player.discordId.value := PlayerRow(player.allyCode.value, Some(OrEmpty(player.altAllyCodes)))];
      ok := true;
    }

    /** `getPlayer` */
    method GetPlayer(userId: string) returns (p: Option<Player>)
      ensures p == Lookup(table, userId)
    {
      if userId == "" {
        return None;
      }
      if userId !in table {
        return None;
      }
      var row := table[userId];
      p := Some(Player(row.allyCode, OrEmpty(row.altAllyCodes)));
    }

    /** `removeAllyCode`: refuses a player with no discord id or no ally
        code, and one without a row; otherwise rewrites that row. */
    method RemoveAllyCode(player: DiscordPlayer) returns (ok: bool)
      modifies this
      ensures ok <==> Present(player.discordId) && Present(player.allyCode) && player.discordId.value in old(table)
      ensures ok ==> table == old(table)[player.discordId.value :=
                                RemovedRow(old(table)[player.discordId.value], player.allyCode.value)]
      ensures !ok ==> table == old(table)
    {
      if player.discordId.None? || player.discordId.value == "" ||
         player.allyCode.None? || player.allyCode.value == "" {
        return false;
      }
      var id := player.discordId.value;
      var code := player.allyCode.value;
      if id !in table {
        return false;
      }
      var playerData := table[id];
      var newAllyCode := playerData.allyCode;
      var newAlts := playerData.altAllyCodes;
      if code == playerData.allyCode {
        newAllyCode := "";
      }
      if playerData.altAllyCodes.Some? && code in playerData.altAllyCodes.value {
        newAlts := Some(Without(OrEmpty(newAlts), code));
      }
      table := table[id := PlayerRow(newAllyCode, Some(OrEmpty(newAlts)))];
      ok := true;
    }
  }
}
