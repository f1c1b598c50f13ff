/**
 * The decision of the `/register-player` command
 * (src/commands/player/register-player.ts): validate the typed ally code,
 * then register a new player, add an alternate code, or replace the primary
 * code, or refuse. The command's lookup and save are single calls into the
 * player table; here the looked-up record is an input and the decision says
 * what would be saved. The reply texts are not part of this model.
 */
module RegisterPlayer {
  import opened Js
  import AllyCode
  import PlayerClient

  /** The command's own `normalizeAllyCode`: nothing for an absent or empty
      input, otherwise the digits of the input when there are exactly nine. */
  function NormalizeAllyCode(value: Option<string>): (r: Option<string>)
    ensures value.None? || value.value == "" ==> r.None?
    ensures value.Some? && value.value != "" ==> (r.Some? <==> |Digits(value.value)| == 9)
    ensures r.Some? ==> AllyCode.IsAllyCode(r.value) && r.value == Digits(value.value)
  {
    if value.None? || value.value == "" then None
    else
      var normalized := Digits(value.value);
      DigitsAreDigits(value.value);
      if |normalized| == 9 then Some(normalized) else None
  }

  function AsValue(value: Option<string>): AllyCode.Value
  {
    if value.None? then AllyCode.Absent else AllyCode.Text(value.value)
  }

  /** The local copy agrees with the shared `normalizeAllyCode` on every
      string, the empty one included. */
  lemma NormalizeAgrees(value: Option<string>)
    ensures NormalizeAllyCode(value) == AllyCode.Normalize(AsValue(value))
  {
    if value.Some? && value.value == "" {
      assert Digits(value.value) == [];
    }
  }

  /** `sanitizeAllyCodes` */
  function SanitizeAllyCodes(codes: Option<seq<string>>): (r: seq<string>)
    ensures codes.None? ==> r == []
    ensures forall k :: 0 <= k < |r| ==> AllyCode.IsAllyCode(r[k])
  {
    if codes.None? then [] else SanitizeSeq(codes.value)
  }

  function SanitizeSeq(codes: seq<string>): (r: seq<string>)
    ensures |r| <= |codes|
    ensures forall k :: 0 <= k < |r| ==> AllyCode.IsAllyCode(r[k])
  {
    if codes == [] then []
    else
      var head := NormalizeAllyCode(Some(codes[0]));
      (if head.Some? then [head.value] else []) + SanitizeSeq(codes[1..])
  }

  function AsValues(codes: seq<string>): seq<AllyCode.Value>
  {
    seq(|codes|, i requires 0 <= i < |codes| => AllyCode.Text(codes[i]))
  }

  /** The local sanitiser is the shared `sanitizeAllyCodeList` on the same
      strings. */
  lemma {:induction false} SanitizeAgrees(codes: seq<string>)
    ensures SanitizeSeq(codes) == AllyCode.Sanitize(AsValues(codes))
  {
    if codes != [] {
      SanitizeAgrees(codes[1..]);
      NormalizeAgrees(Some(codes[0]));
      assert AsValues(codes)[0] == AllyCode.Text(codes[0]);
      assert AsValues(codes)[1..] == AsValues(codes[1..]);
    }
  }

  // ---------------------------------------------------------------------
  // The decision

  /** What `addUser` is asked to store. */
  datatype Save = Save(allyCode: string, altAllyCodes: seq<string>)

  datatype Decision =
    | InvalidAllyCode            // "Please provide a valid ally code"
    | RegisterNew(save: Save)    // `registerNewPlayer`
    | AlreadyPrimaryAlt          // alternate requested, code is the primary
    | AlreadyAlternate           // alternate requested, code already stored
    | AddAlternate(save: Save)
    | AlreadyRegisteredPrimary   // primary requested, code is the primary
    | UpdatePrimary(save: Save)

  predicate Saves(d: Decision)
  {
    d.RegisterNew? || d.AddAlternate? || d.UpdatePrimary?
  }

  /** The primary `updateExistingPlayer` compares against: the stored one
      normalised, or the new code when the stored one does not normalise. */
  function EffectivePrimary(code: string, existing: PlayerClient.Player): string
  {
    var stored := NormalizeAllyCode(Some(existing.allyCode));
    if stored.Some? then stored.value else code
  }

  /** `updateExistingPlayer`, as written. */
  function UpdateExisting(code: string, isAlt: bool, existing: PlayerClient.Player): (d: Decision)
    ensures isAlt ==> d.AlreadyPrimaryAlt? || d.AlreadyAlternate? || d.AddAlternate?
    ensures !isAlt ==> d.AlreadyRegisteredPrimary? || d.UpdatePrimary?
  {
    var primaryAllyCode := EffectivePrimary(code, existing);
    var altAllyCodes := SanitizeAllyCodes(Some(existing.altAllyCodes));
    if isAlt then
      if primaryAllyCode == code then AlreadyPrimaryAlt
      else if code in altAllyCodes then AlreadyAlternate
      else AddAlternate(Save(primaryAllyCode, altAllyCodes + [code]))
    else if primaryAllyCode == code then AlreadyRegisteredPrimary
    else UpdatePrimary(Save(code, altAllyCodes))
  }

  /** `chatInputRun`: `input` is the typed option, `isAlt` the optional flag
      (`?? false`), `existing` what the lookup would return. */
  function Run(input: Option<string>, isAlt: Option<bool>, existing: Option<PlayerClient.Player>): (d: Decision)
    ensures d.InvalidAllyCode? <==> NormalizeAllyCode(input).None?
    ensures d.RegisterNew? <==> NormalizeAllyCode(input).Some? && existing.None?
    ensures d.RegisterNew? ==> d.save == Save(NormalizeAllyCode(input).value, [])
  {
    match NormalizeAllyCode(input)
    case None => InvalidAllyCode
    case Some(code) =>
      if existing.None? then RegisterNew(Save(code, []))
      else UpdateExisting(code, isAlt == Some(true), existing.value)
  }

  /** An invalid code is refused whatever the stored record, so the lookup
      plays no part in that answer. */
  lemma InvalidIgnoresRecord(input: Option<string>, isAlt: Option<bool>,
                             a: Option<PlayerClient.Player>, b: Option<PlayerClient.Player>)
    requires NormalizeAllyCode(input).None?
    ensures Run(input, isAlt, a) == Run(input, isAlt, b) == InvalidAllyCode
  {
  }

  /** Every saved record holds only valid codes: the primary and each
      alternate are nine digits. */
  lemma SavedCodesValid(input: Option<string>, isAlt: Option<bool>, existing: Option<PlayerClient.Player>)
    ensures var d := Run(input, isAlt, existing);
      Saves(d) ==> AllyCode.IsAllyCode(d.save.allyCode) &&
                   forall k :: 0 <= k < |d.save.altAllyCodes| ==> AllyCode.IsAllyCode(d.save.altAllyCodes[k])
  {
  }

  /** Adding an alternate: refused iff the code is the (effective) primary or
      already a sanitised alternate; otherwise the primary is kept and the
      code is appended once to the sanitised alternates. */
  lemma AltDecision(code: string, existing: PlayerClient.Player)
    ensures var d := UpdateExisting(code, true, existing);
            var alts := SanitizeAllyCodes(Some(existing.altAllyCodes));
      (d.AlreadyPrimaryAlt? <==> EffectivePrimary(code, existing) == code) &&
      (d.AlreadyAlternate? <==> EffectivePrimary(code, existing) != code && code in alts) &&
      (d.AddAlternate? ==> d.save.allyCode == EffectivePrimary(code, existing) &&
                           d.save.allyCode != code &&
                           d.save.altAllyCodes == alts + [code] &&
                           multiset(d.save.altAllyCodes)[code] == 1)
  {
    var alts := SanitizeAllyCodes(Some(existing.altAllyCodes));
    if code !in alts {
      assert multiset(alts)[code] == 0;
    }
  }

  /** A valid stored primary is kept verbatim (after normalisation) when an
      alternate is added. */
  lemma AltKeepsValidPrimary(code: string, existing: PlayerClient.Player)
    requires AllyCode.IsAllyCode(existing.allyCode)
    ensures var d := UpdateExisting(code, true, existing);
      d.AddAlternate? ==> d.save.allyCode == existing.allyCode
  {
    NormalizeAgrees(Some(existing.allyCode));
    AllyCode.NormalizeFixedPoints(existing.allyCode);
  }

  /** Replacing the primary: refused iff the code is the (effective)
      primary; otherwise the code becomes the primary and the sanitised
      alternates are saved unchanged; the old primary is not moved among
      them. */
  lemma PrimaryDecision(code: string, existing: PlayerClient.Player)
    ensures var d := UpdateExisting(code, false, existing);
      (d.AlreadyRegisteredPrimary? <==> EffectivePrimary(code, existing) == code) &&
      (d.UpdatePrimary? ==> d.save == Save(code, SanitizeAllyCodes(Some(existing.altAllyCodes))))
  {
  }

  // ---------------------------------------------------------------------
  // A stored primary that does not normalise

  /** As written, a record whose stored primary is not a valid code (for
      instance the "" that `removeAllyCode` leaves behind) refuses every
      valid code in both branches, so nothing can ever be saved for it. */
  lemma InvalidPrimaryLocksRecord(code: string, isAlt: bool, existing: PlayerClient.Player)
    requires NormalizeAllyCode(Some(existing.allyCode)).None?
    ensures !Saves(UpdateExisting(code, isAlt, existing))
    ensures !isAlt ==> UpdateExisting(code, isAlt, existing) == AlreadyRegisteredPrimary
  {
  }

  /** The concrete case: after the primary itself has been removed from a
      player's row, registering any valid code as the new primary is
      answered "already registered as primary" and saves nothing. */
  lemma RemovedPrimaryBlocksNewPrimary(table: map<string, PlayerClient.PlayerRow>, id: string, input: string)
    requires id != "" && id in table && table[id].allyCode != ""
    requires NormalizeAllyCode(Some(input)).Some?
    ensures var after := table[id := PlayerClient.RemovedRow(table[id], table[id].allyCode)];
      Run(Some(input), None, PlayerClient.Lookup(after, id)) == AlreadyRegisteredPrimary
  {
    var after := table[id := PlayerClient.RemovedRow(table[id], table[id].allyCode)];
    assert PlayerClient.Lookup(after, id).value.allyCode == "";
  }

  /** The evidently intended `updateExistingPlayer`: a stored primary that
      does not normalise counts as no primary, so the new code replaces it. */
  function UpdateExistingFixed(code: string, isAlt: bool, existing: PlayerClient.Player): (d: Decision)
    ensures isAlt ==> d == UpdateExisting(code, isAlt, existing)
  {
    if !isAlt && NormalizeAllyCode(Some(existing.allyCode)).None? then
      UpdatePrimary(Save(code, SanitizeAllyCodes(Some(existing.altAllyCodes))))
    else UpdateExisting(code, isAlt, existing)
  }

  /** With the fix, a primary request is refused exactly when the stored
      primary really is that code; it agrees with the code as written
      whenever the stored primary is valid. */
  lemma FixedPrimaryDecision(code: string, existing: PlayerClient.Player)
    ensures var d := UpdateExistingFixed(code, false, existing);
      (d.AlreadyRegisteredPrimary? <==> NormalizeAllyCode(Some(existing.allyCode)) == Some(code)) &&
      (d.UpdatePrimary? ==> d.save == Save(code, SanitizeAllyCodes(Some(existing.altAllyCodes))))
    ensures NormalizeAllyCode(Some(existing.allyCode)).Some? ==>
      UpdateExistingFixed(code, false, existing) == UpdateExisting(code, false, existing)
  {
  }
}
