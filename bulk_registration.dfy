/**
 * The bulk registration script (infra/registerPlayersFromFile.ts): parse
 * a text file of `<player name> <ally code>: <discord handle>` lines, match
 * each handle to a guild member, and register each player's ally code in
 * the player table, counting the outcomes.
 *
 * The file content and the guild's member list are inputs; the table is a
 * `PlayerClient.PlayerStore`. Environment checks, command-line handling,
 * the Discord login and the log lines are not part of this model.
 */
module BulkRegistration {
  import opened Js
  import AllyCode
  import PlayerClient
  import RegisterPlayer

  datatype RegistrationInput = RegistrationInput(playerName: string, allyCode: string, discordHandle: string)

  /** A parsed line whose handle was matched to a member. */
  datatype Registration = Registration(input: RegistrationInput, discordId: string)

  // ---------------------------------------------------------------------
  // Handles

  /** `normalizeHandle`: trimmed, lower-cased, and cut at the first "#";
      "" for an absent or empty handle. */
  function NormalizeHandle(handle: Option<string>): (r: string)
    ensures handle.None? || handle.value == "" ==> r == ""
    ensures '#' !in r
  {
    if handle.None? || handle.value == "" then ""
    else
      var parts := Split(ToLower(Trim(handle.value)), '#');
      SplitJoin(ToLower(Trim(handle.value)), '#');
      parts[0]
  }

  /** The first piece of a split is the text before the first separator. */
  lemma {:induction false} SplitHead(s: string, sep: char)
    ensures var h := Split(s, sep)[0];
      |h| <= |s| && h == s[..|h|] && sep !in h && (|h| < |s| ==> s[|h|] == sep)
  {
    if s != [] && s[0] != sep {
      SplitHead(s[1..], sep);
      var rest := Split(s[1..], sep);
      assert Split(s, sep)[0] == [s[0]] + rest[0];
    }
  }

  /** A non-empty handle normalises to the part of its trimmed, lower-cased
      text before the first "#", or all of it when there is no "#". */
  lemma NormalizeHandleBeforeHash(handle: string)
    requires handle != ""
    ensures var t := ToLower(Trim(handle));
            var r := NormalizeHandle(Some(handle));
      |r| <= |t| && r == t[..|r|] && (|r| < |t| ==> t[|r|] == '#') && ('#' !in t <==> r == t)
  {
    SplitHead(ToLower(Trim(handle)), '#');
  }

  datatype GuildMember = GuildMember(id: string, username: string)

  /** `findMatchingMember` */
  predicate HandleMatches(m: GuildMember, handle: string)
  {
    NormalizeHandle(Some(handle)) == ToLower(m.username)
  }

  /** `members.find(...)`: the first member, in the collection's order, whose
      user name matches the handle. */
  function FindMember(members: seq<GuildMember>, handle: string): (r: Option<GuildMember>)
    ensures r.Some? ==> r.value in members && HandleMatches(r.value, handle)
    ensures r.None? ==> forall m :: m in members ==> !HandleMatches(m, handle)
  {
    if members == [] then None
    else if HandleMatches(members[0], handle) then Some(members[0])
    else FindMember(members[1..], handle)
  }

  /** The member found is the first matching one. */
  lemma {:induction false} FindMemberFirst(members: seq<GuildMember>, handle: string)
    requires FindMember(members, handle).Some?
    ensures exists k :: 0 <= k < |members| && members[k] == FindMember(members, handle).value &&
                        forall j :: 0 <= j < k ==> !HandleMatches(members[j], handle)
  {
    var found := FindMember(members, handle).value;
    if HandleMatches(members[0], handle) {
      assert members[0] == found;
    } else {
      var rest := members[1..];
      assert FindMember(rest, handle).value == found;
      FindMemberFirst(rest, handle);
      var k :| 0 <= k < |rest| && rest[k] == found &&
               forall j :: 0 <= j < k ==> !HandleMatches(rest[j], handle);
      forall j | 0 <= j < k + 1 ensures !HandleMatches(members[j], handle) {
        if j > 0 { assert members[j] == rest[j - 1]; }
      }
      assert members[k + 1] == found;
    }
  }

  /** The registration took its id from a member whose name matches its handle. */
  predicate ResolvedBy(reg: Registration, members: seq<GuildMember>)
  {
    exists m :: m in members && m.id == reg.discordId && HandleMatches(m, reg.input.discordHandle)
  }

  /** No member's name matches the player's handle. */
  predicate Unmatched(player: RegistrationInput, members: seq<GuildMember>)
  {
    forall m :: m in members ==> !HandleMatches(m, player.discordHandle)
  }

  datatype Resolution = Resolution(resolved: seq<Registration>, unresolved: seq<RegistrationInput>)

  /** The elements of `s` that satisfy `p`, in order. */
  function Filter<T(!new)>(s: seq<T>, p: T -> bool): (r: seq<T>)
    ensures |r| <= |s|
  {
    if s == [] then []
    else
      var init := s[..|s| - 1];
      var last := s[|s| - 1];
      assert s == init + [last];
      Filter(init, p) + (if p(last) then [last] else [])
  }

  /** `Filter` keeps exactly the elements that satisfy the test. */
  lemma {:induction false} FilterMembers<T(!new)>(s: seq<T>, p: T -> bool, x: T)
    ensures x in Filter(s, p) <==> x in s && p(x)
  {
    if s != [] {
      var init := s[..|s| - 1];
      var last := s[|s| - 1];
      assert s == init + [last];
      FilterMembers(init, p, x);
    }
  }

  /** A filter and the filter of the negated test split the input. */
  lemma {:induction false} FilterSplit<T(!new)>(s: seq<T>, p: T -> bool, q: T -> bool)
    requires forall x :: q(x) == !p(x)
    ensures |Filter(s, p)| + |Filter(s, q)| == |s|
    ensures multiset(Filter(s, p)) + multiset(Filter(s, q)) == multiset(s)
  {
    if s != [] {
      var init := s[..|s| - 1];
      var last := s[|s| - 1];
      FilterSplit(init, p, q);
      assert multiset(s) == multiset(init) + multiset{last} by {
        assert s == init + [last];
      }
      if p(last) {
        assert !q(last);
        assert Filter(s, p) == Filter(init, p) + [last];
        assert multiset(Filter(s, p)) == multiset(Filter(init, p)) + multiset{last};
        assert Filter(s, q) == Filter(init, q);
      } else {
        assert q(last);
        assert Filter(s, p) == Filter(init, p);
        assert Filter(s, q) == Filter(init, q) + [last];
        assert multiset(Filter(s, q)) == multiset(Filter(init, q)) + multiset{last};
      }
    }
  }

  /** Whether some member matches the player's handle. */
  function MatchedBy(members: seq<GuildMember>): RegistrationInput -> bool
  {
    (player: RegistrationInput) => FindMember(members, player.discordHandle).Some?
  }

  function UnmatchedBy(members: seq<GuildMember>): RegistrationInput -> bool
  {
    (player: RegistrationInput) => FindMember(members, player.discordHandle).None?
  }

  /** The parsed lines behind a list of registrations. */
  function Inputs(regs: seq<Registration>): (r: seq<RegistrationInput>)
    ensures |r| == |regs|
  {
    if regs == [] then [] else Inputs(regs[..|regs| - 1]) + [regs[|regs| - 1].input]
  }

  lemma InputsSnoc(regs: seq<Registration>, reg: Registration)
    ensures Inputs(regs + [reg]) == Inputs(regs) + [reg.input]
  {
    assert (regs + [reg])[..|regs|] == regs;
  }

  /** What `resolveDiscordIds` builds: the players whose handle matched a
      member, in file order, each with the id of the first matching member,
      and the others, in file order. Every player is in exactly one of the
      two lists. */
  function Resolve(players: seq<RegistrationInput>, members: seq<GuildMember>): (r: Resolution)
    ensures |r.resolved| + |r.unresolved| == |players|
  {
    if players == [] then Resolution([], [])
    else
      var prior := Resolve(players[..|players| - 1], members);
      var player := players[|players| - 1];
      match FindMember(members, player.discordHandle)
      case None => Resolution(prior.resolved, prior.unresolved + [player])
      case Some(member) => Resolution(prior.resolved + [Registration(player, member.id)], prior.unresolved)
  }

  /** The registration carries the id of the first member matching its
      handle. */
  predicate FirstMatchId(reg: Registration, members: seq<GuildMember>)
  {
    FindMember(members, reg.input.discordHandle).Some? &&
    reg.discordId == FindMember(members, reg.input.discordHandle).value.id
  }

  /** Each resolved player carries the id of the first member matching its
      handle; no member matches an unresolved player's handle. */
  lemma ResolveMatches(players: seq<RegistrationInput>, members: seq<GuildMember>)
    ensures var r := Resolve(players, members);
      (forall k :: 0 <= k < |r.resolved| ==> FirstMatchId(r.resolved[k], members)) &&
      (forall k :: 0 <= k < |r.resolved| ==> ResolvedBy(r.resolved[k], members)) &&
      (forall k :: 0 <= k < |r.unresolved| ==> Unmatched(r.unresolved[k], members))
  {
    var r := Resolve(players, members);
    forall k | 0 <= k < |r.resolved|
      ensures FirstMatchId(r.resolved[k], members) && ResolvedBy(r.resolved[k], members)
    {
      ResolvedAt(players, members, k);
    }
    forall k | 0 <= k < |r.unresolved| ensures Unmatched(r.unresolved[k], members) {
      UnresolvedAt(players, members, k);
    }
  }

  /** The k-th resolved player carries the first match's id. */
  lemma {:induction false} ResolvedAt(players: seq<RegistrationInput>, members: seq<GuildMember>, k: nat)
    requires k < |Resolve(players, members).resolved|
    ensures FirstMatchId(Resolve(players, members).resolved[k], members)
  {
    var init := players[..|players| - 1];
    var player := players[|players| - 1];
    var prior := Resolve(init, members);
    if k < |prior.resolved| {
      assert Resolve(players, members).resolved[k] == prior.resolved[k];
      ResolvedAt(init, members, k);
    }
  }

  /** No member matches the k-th unresolved player. */
  lemma {:induction false} UnresolvedAt(players: seq<RegistrationInput>, members: seq<GuildMember>, k: nat)
    requires k < |Resolve(players, members).unresolved|
    ensures Unmatched(Resolve(players, members).unresolved[k], members)
  {
    var init := players[..|players| - 1];
    var player := players[|players| - 1];
    var prior := Resolve(init, members);
    if k < |prior.unresolved| {
      assert Resolve(players, members).unresolved[k] == prior.unresolved[k];
      UnresolvedAt(init, members, k);
    }
  }

  /** The resolved players are the players with a matching member and the
      unresolved ones the others, each list in file order. */
  lemma {:induction false} ResolveFilters(players: seq<RegistrationInput>, members: seq<GuildMember>)
    ensures Inputs(Resolve(players, members).resolved) == Filter(players, MatchedBy(members))
    ensures Resolve(players, members).unresolved == Filter(players, UnmatchedBy(members))
  {
    if players != [] {
      var init := players[..|players| - 1];
      var player := players[|players| - 1];
      var prior := Resolve(init, members);
      ResolveFilters(init, members);
      match FindMember(members, player.discordHandle)
      case None =>
      case Some(member) =>
        InputsSnoc(prior.resolved, Registration(player, member.id));
    }
  }

  /** `resolveDiscordIds` (the warning about unmatched players is not
      modelled). */
  method ResolveDiscordIds(players: seq<RegistrationInput>, members: seq<GuildMember>)
    returns (resolvedPlayers: seq<Registration>, unresolvedPlayers: seq<RegistrationInput>)
    ensures Resolution(resolvedPlayers, unresolvedPlayers) == Resolve(players, members)
  {
    resolvedPlayers := [];
    unresolvedPlayers := [];
    for i := 0 to |players|
      invariant Resolution(resolvedPlayers, unresolvedPlayers) == Resolve(players[..i], members)
    {
      var player := players[i];
      var member := FindMember(members, player.discordHandle);
      assert players[..i + 1][..i] == players[..i];
      if member.None? {
        unresolvedPlayers := unresolvedPlayers + [player];
      } else {
        resolvedPlayers := resolvedPlayers + [Registration(player, member.value.id)];
      }
    }
    assert players[..|players|] == players;
  }

  // ---------------------------------------------------------------------
  // The line parser

  /** `s.indexOf(c)` */
  function IndexOf(s: string, c: char): (r: Option<nat>)
    ensures r.Some? ==> r.value < |s| && s[r.value] == c && c !in s[..r.value]
    ensures r.None? ==> c !in s
  {
    if s == [] then None
    else if s[0] == c then Some(0)
    else
      match IndexOf(s[1..], c)
      case None => None
      case Some(i) =>
        assert s[..i + 1] == [s[0]] + s[1..][..i];
        Some(i + 1)
  }

  /** The first occurrence is the one `indexOf` finds. */
  lemma IndexOfFirst(s: string, c: char, k: nat)
    requires k < |s| && s[k] == c && c !in s[..k]
    ensures IndexOf(s, c) == Some(k)
  {
    assert s[k] in s;
  }

  /** The position of the last white-space character. */
  function LastSpace(s: string): (r: Option<nat>)
    ensures r.Some? ==> r.value < |s| && IsSpace(s[r.value]) &&
                        forall j :: r.value < j < |s| ==> !IsSpace(s[j])
    ensures r.None? ==> forall j :: 0 <= j < |s| ==> !IsSpace(s[j])
    decreases |s|
  {
    if s == [] then None
    else if IsSpace(s[|s| - 1]) then Some(|s| - 1)
    else
      var r := LastSpace(s[..|s| - 1]);
      assert forall j :: 0 <= j < |s| - 1 ==> s[..|s| - 1][j] == s[j];
      r
  }

  /** `c` matches `\d{3}` followed by `n` more groups `-?\d{3}`. */
  predicate Groups(c: string, n: nat)
    decreases n
  {
    |c| >= 3 && IsDigit(c[0]) && IsDigit(c[1]) && IsDigit(c[2]) &&
    if n == 0 then |c| == 3
    else
      var rest := c[3..];
      (rest != [] && rest[0] == '-' && Groups(rest[1..], n - 1)) || Groups(rest, n - 1)
  }

  /** `\d{3}-?\d{3}-?\d{3}` matching all of `c`. */
  predicate CodeShape(c: string)
  {
    Groups(c, 2)
  }

  /** A string of digit groups holds only digits and dashes, three digits per
      group. */
  lemma {:induction false} GroupsDigits(c: string, n: nat)
    requires Groups(c, n)
    ensures |Digits(c)| == 3 * (n + 1)
    ensures forall i :: 0 <= i < |c| ==> IsDigit(c[i]) || c[i] == '-'
    decreases n
  {
    var head := c[..3];
    var rest := c[3..];
    assert AllDigits(head);
    DigitsOfDigits(head);
    assert c == head + rest;
    DigitsAppend(head, rest);
    if n > 0 {
      if rest != [] && rest[0] == '-' && Groups(rest[1..], n - 1) {
        GroupsDigits(rest[1..], n - 1);
        assert rest == "-" + rest[1..];
        DigitsAppend("-", rest[1..]);
        assert Digits("-") == [];
        forall i | 3 < i < |c| ensures IsDigit(c[i]) || c[i] == '-' {
          assert c[i] == rest[1..][i - 4];
        }
      } else {
        GroupsDigits(rest, n - 1);
        forall i | 3 <= i < |c| ensures IsDigit(c[i]) || c[i] == '-' {
          assert c[i] == rest[i - 3];
        }
      }
    } else {
      assert rest == [];
    }
  }

  /** A code-shaped string holds only digits and dashes, nine digits in all. */
  lemma CodeShapeDigits(c: string)
    requires CodeShape(c)
    ensures |Digits(c)| == 9
    ensures forall i :: 0 <= i < |c| ==> IsDigit(c[i]) || c[i] == '-'
  {
    GroupsDigits(c, 2);
  }

  /** Digits alone, three per group, form the groups without dashes. */
  lemma {:induction false} DigitsFormGroups(c: string, n: nat)
    requires AllDigits(c) && |c| == 3 * (n + 1)
    ensures Groups(c, n)
    decreases n
  {
    if n > 0 {
      var rest := c[3..];
      assert AllDigits(rest) by {
        forall i | 0 <= i < |rest| ensures IsDigit(rest[i]) { assert rest[i] == c[i + 3]; }
      }
      DigitsFormGroups(rest, n - 1);
    }
  }

  /** A nine-digit ally code has the shape the parser looks for. */
  lemma AllyCodeHasShape(code: string)
    requires AllyCode.IsAllyCode(code)
    ensures CodeShape(code)
  {
    DigitsFormGroups(code, 2);
  }

  /** `left.match(/(.+)\s+(\d{3}-?\d{3}-?\d{3})$/)`: the name group and the
      code group. The code group follows the last white-space character and
      the greedy name group takes everything before that character. */
  function MatchAllyCode(left: string): (m: Option<(string, string)>)
    ensures m.Some? ==> m.value.0 != [] && CodeShape(m.value.1) &&
                        |m.value.0| < |left| && IsSpace(left[|m.value.0|]) &&
                        left == m.value.0 + [left[|m.value.0|]] + m.value.1
    ensures m.None? ==> forall k :: 0 < k < |left| && IsSpace(left[k]) ==> !CodeShape(left[k + 1..])
  {
    match LastSpace(left)
    case None => None
    case Some(p) =>
      OnlyLastSpaceBeforeCode(left, p);
      if p == 0 || !CodeShape(left[p + 1..]) then None
      else
        assert left == left[..p] + [left[p]] + left[p + 1..];
        Some((left[..p], left[p + 1..]))
  }

  /** A code-shaped suffix holds no white space, so it can only follow the
      last white-space character. */
  lemma OnlyLastSpaceBeforeCode(left: string, p: nat)
    requires LastSpace(left) == Some(p)
    ensures forall k :: 0 <= k < p && IsSpace(left[k]) ==> !CodeShape(left[k + 1..])
  {
    forall k | 0 <= k < p && IsSpace(left[k]) ensures !CodeShape(left[k + 1..]) {
      if CodeShape(left[k + 1..]) {
        CodeShapeDigits(left[k + 1..]);
      }
    }
  }

  /** Conversely, every text made of a name, one white-space character and a
      code-shaped suffix matches, with exactly that name and that code. */
  lemma MatchComplete(name: string, w: char, code: string)
    requires name != [] && IsSpace(w) && CodeShape(code)
    ensures MatchAllyCode(name + [w] + code) == Some((name, code))
  {
    var left := name + [w] + code;
    CodeShapeDigits(code);
    assert left[|name|] == w;
    forall j | |name| < j < |left| ensures !IsSpace(left[j]) {
      assert left[j] == code[j - |name| - 1];
    }
    var p := LastSpace(left);
    assert p.Some? && p.value == |name|;
    assert left[..|name|] == name;
    assert left[|name| + 1..] == code;
  }

  datatype LineError =
    | MissingSeparator(line: nat)
    | MissingDiscordId(line: nat)
    | MissingAllyCode(line: nat)
    | InvalidAllyCode(line: nat)

  datatype Parsed = Blank | Entry(input: RegistrationInput) | Failed(error: LineError)

  /** `parseLine(line, index)`: a blank line is skipped; a thrown error is
      `Failed`. An entry carries a valid ally code, a non-empty handle and
      a trimmed name without ":", since the line is split at its first ":";
      the "invalid ally code" error never happens, since whatever the
      pattern accepts holds exactly nine digits. */
  function ParseLine(line: string, index: nat): (p: Parsed)
    ensures p.Blank? <==> Trim(line) == ""
    ensures p.Failed? ==> p.error.line == index && !p.error.InvalidAllyCode?
    ensures p.Entry? ==> AllyCode.IsAllyCode(p.input.allyCode) && p.input.discordHandle != "" &&
                         ':' !in p.input.playerName && Trim(p.input.playerName) == p.input.playerName
  {
    var trimmed := Trim(line);
    if trimmed == "" then Blank else ParseFields(trimmed, index)
  }

  /** The outcomes of a non-blank line, in the order the source checks
      them: no ":" is a missing separator, an empty right side a missing id,
      a left side the pattern does not match a missing code; an entry holds
      the trimmed name group, the digits of the code group and the right
      side. */
  lemma ParseLineOutcomes(line: string, index: nat)
    requires Trim(line) != ""
    ensures var p := ParseLine(line, index);
      var sides := Sides(Trim(line));
      (p == Failed(MissingSeparator(index)) <==> sides.None?) &&
      (p == Failed(MissingDiscordId(index)) <==> sides.Some? && sides.value.1 == "") &&
      (p == Failed(MissingAllyCode(index)) <==>
         sides.Some? && sides.value.1 != "" && MatchAllyCode(sides.value.0).None?) &&
      (p.Entry? <==> sides.Some? && sides.value.1 != "" && MatchAllyCode(sides.value.0).Some?) &&
      (p.Entry? ==> var m := MatchAllyCode(sides.value.0).value;
                    p.input == RegistrationInput(Trim(m.0), Digits(m.1), sides.value.1))
  {
    assert ParseLine(line, index) == ParseFields(Trim(line), index);
  }

  /** `trimmed.slice(0, colonIndex).trim()` and `trimmed.slice(colonIndex + 1).trim()`
      for the first ":", or nothing when there is no ":". The left side
      holds no ":". */
  function Sides(trimmed: string): (r: Option<(string, string)>)
    ensures r.None? <==> ':' !in trimmed
    ensures r.Some? ==> ':' !in r.value.0
  {
    match IndexOf(trimmed, ':')
    case None => None
    case Some(colonIndex) =>
      TrimChars(trimmed[..colonIndex]);
      Some((Trim(trimmed[..colonIndex]), Trim(trimmed[colonIndex + 1..])))
  }

  /** The split of a non-blank line at its first ":". */
  function ParseFields(trimmed: string, index: nat): (p: Parsed)
    ensures !p.Blank?
    ensures p == Failed(MissingSeparator(index)) <==> ':' !in trimmed
    ensures ':' in trimmed ==> p == ParseParts(Sides(trimmed).value.0, Sides(trimmed).value.1, index)
    ensures p.Failed? ==> p.error.line == index && !p.error.InvalidAllyCode?
    ensures p.Entry? ==> AllyCode.IsAllyCode(p.input.allyCode) && p.input.discordHandle != "" &&
                         ':' !in p.input.playerName && Trim(p.input.playerName) == p.input.playerName
  {
    match Sides(trimmed)
    case None => Failed(MissingSeparator(index))
    case Some(sides) => ParseParts(sides.0, sides.1, index)
  }

  /** The checks on the two sides of the ":", in the order of the source:
      an empty right side is a missing id, a left side the pattern does not
      match is a missing code; otherwise the entry holds the trimmed name
      group, the digits of the code group and the right side. The source's
      "invalid formatting" check is not modelled: both groups of a match are
      never empty. */
  function ParseParts(left: string, right: string, index: nat): (p: Parsed)
    ensures !p.Blank?
    ensures p == Failed(MissingDiscordId(index)) <==> right == ""
    ensures p == Failed(MissingAllyCode(index)) <==> right != "" && MatchAllyCode(left).None?
    ensures p.Entry? <==> right != "" && MatchAllyCode(left).Some?
    ensures p.Entry? ==> var m := MatchAllyCode(left).value;
                         p.input == RegistrationInput(Trim(m.0), Digits(m.1), right)
    ensures p.Failed? ==> p.error.line == index && !p.error.InvalidAllyCode?
    ensures p.Entry? ==> AllyCode.IsAllyCode(p.input.allyCode) && p.input.discordHandle == right != "" &&
                         (forall c :: c in p.input.playerName ==> c in left) &&
                         Trim(p.input.playerName) == p.input.playerName
  {
    if right == "" then Failed(MissingDiscordId(index))
    else
      var m := MatchAllyCode(left);
      if m.None? then Failed(MissingAllyCode(index))
      else
        var allyCode := AllyCode.Normalize(AllyCode.Text(m.value.1));
        CodeShapeDigits(m.value.1);
        if allyCode.None? then Failed(InvalidAllyCode(index))
        else
          NamePartChars(left, m.value.0);
          TrimChars(m.value.0);
          TrimIdempotent(m.value.0);
          Entry(RegistrationInput(Trim(m.value.0), allyCode.value, right))
  }

  lemma NamePartChars(left: string, name: string)
    requires |name| <= |left| && name == left[..|name|]
    ensures forall c :: c in name ==> c in left
  {
    forall c | c in name ensures c in left {
      var i :| 0 <= i < |name| && name[i] == c;
      assert left[i] == c;
    }
  }

  /** The two sides of a formatted line pass the checks unchanged. */
  lemma ParsePartsFormatted(name: string, code: string, handle: string, index: nat)
    requires name != "" && Trim(name) == name
    requires AllyCode.IsAllyCode(code)
    requires handle != ""
    ensures ParseParts(name + [' '] + code, handle, index) == Entry(RegistrationInput(name, code, handle))
  {
    AllyCodeHasShape(code);
    MatchComplete(name, ' ', code);
    AllyCode.NormalizeFixedPoints(code);
  }

  /** A line that is already trimmed is parsed by its split at the first
      ":". */
  lemma ParseLineSplit(line: string, k: nat, index: nat)
    requires line != "" && Trim(line) == line && IndexOf(line, ':') == Some(k)
    ensures ParseLine(line, index) == ParseParts(Trim(line[..k]), Trim(line[k + 1..]), index)
  {
    var t := Trim(line);
    assert t == line;
    assert ParseLine(line, index) == ParseFields(t, index);
    SidesAt(line, k);
  }

  lemma SidesAt(t: string, k: nat)
    requires IndexOf(t, ':') == Some(k)
    ensures Sides(t) == Some((Trim(t[..k]), Trim(t[k + 1..])))
  {
  }

  /** `<name> <code>` holds no ":". */
  lemma HeadHasNoColon(name: string, code: string)
    requires ':' !in name && AllyCode.IsAllyCode(code)
    ensures ':' !in name + [' '] + code
  {
    var head := name + [' '] + code;
    forall i | 0 <= i < |head| ensures head[i] != ':' {
      if i < |name| {
        assert head[i] == name[i];
      } else if i > |name| {
        assert head[i] == code[i - |name| - 1];
        assert IsDigit(code[i - |name| - 1]);
      }
    }
  }

  /** The layout of a formatted line: trimmed, its first ":" right after
      the code, the handle after one space. */
  lemma FormattedLayout(name: string, code: string, handle: string)
    requires name != "" && Trim(name) == name && ':' !in name
    requires AllyCode.IsAllyCode(code)
    requires handle != "" && Trim(handle) == handle
    ensures var head := name + [' '] + code;
            var line := name + " " + code + ": " + handle;
      line != "" && Trim(line) == line && IndexOf(line, ':') == Some(|head|) &&
      line[..|head|] == head && line[|head| + 1..] == [' '] + handle
  {
    var head := name + [' '] + code;
    var tail := [' '] + handle;
    var line := head + [':'] + tail;
    assert name + " " + code + ": " + handle == line;
    assert line[0] == name[0] && line[|line| - 1] == handle[|handle| - 1];
    TrimmedAlready(line);
    HeadHasNoColon(name, code);
    ColonAfter(head, tail);
  }

  /** In `head + ":" + tail` with no ":" in head, the first ":" follows
      the head. */
  lemma ColonAfter(head: string, tail: string)
    requires ':' !in head
    ensures var line := head + [':'] + tail;
      IndexOf(line, ':') == Some(|head|) && line[..|head|] == head && line[|head| + 1..] == tail
  {
    var line := head + [':'] + tail;
    assert line[..|head|] == head;
    IndexOfFirst(line, ':', |head|);
    assert line[|head| + 1..] == tail;
  }

  /** A line written as `<name> <code>: <handle>` parses back to exactly that
      name, code and handle; the handle may itself contain ":". */
  lemma ParseFormattedLine(name: string, code: string, handle: string, index: nat)
    requires name != "" && Trim(name) == name && ':' !in name
    requires AllyCode.IsAllyCode(code)
    requires handle != "" && Trim(handle) == handle
    ensures ParseLine(name + " " + code + ": " + handle, index) ==
            Entry(RegistrationInput(name, code, handle))
  {
    var head := name + [' '] + code;
    var line := name + " " + code + ": " + handle;
    FormattedLayout(name, code, handle);
    assert head[0] == name[0] && head[|head| - 1] == code[8];
    TrimmedAlready(head);
    TrimLeadingSpace(' ', handle);
    ParseLineSplit(line, |head|, index);
    ParsePartsFormatted(name, code, handle, index);
  }

  // ---------------------------------------------------------------------
  // Loading the file

  /** `content.split(/\r?\n/)`: split at every line feed, dropping one
      carriage return right before it. */
  function SplitLines(content: string): (lines: seq<string>)
    ensures |lines| == |Split(content, '\n')|
  {
    var pieces := Split(content, '\n');
    seq(|pieces|, k requires 0 <= k < |pieces| =>
      if k < |pieces| - 1 && pieces[k] != [] && pieces[k][|pieces[k]| - 1] == '\r'
      then pieces[k][..|pieces[k]| - 1] else pieces[k])
  }

  /** The lines hold no line feed; each line-feed piece but the last loses
      exactly one trailing carriage return, and the last piece is kept as it
      is. */
  lemma SplitLinesContents(content: string)
    ensures var lines := SplitLines(content);
      var pieces := Split(content, '\n');
      (forall k :: 0 <= k < |lines| ==> '\n' !in lines[k]) &&
      (forall k :: 0 <= k < |lines| - 1 ==>
         if pieces[k] != [] && pieces[k][|pieces[k]| - 1] == '\r' then pieces[k] == lines[k] + ['\r']
         else lines[k] == pieces[k]) &&
      lines[|lines| - 1] == pieces[|lines| - 1]
  {
    var lines := SplitLines(content);
    var pieces := Split(content, '\n');
    forall k | 0 <= k < |lines| ensures '\n' !in lines[k] {
      LineHasNoFeed(content, k);
    }
    forall k | 0 <= k < |lines| - 1
      ensures if pieces[k] != [] && pieces[k][|pieces[k]| - 1] == '\r' then pieces[k] == lines[k] + ['\r']
              else lines[k] == pieces[k]
    {
      LineDropsReturn(content, k);
    }
  }

  /** A line-feed piece other than the last loses one trailing carriage
      return. */
  lemma LineDropsReturn(content: string, k: nat)
    requires k + 1 < |Split(content, '\n')|
    ensures var piece := Split(content, '\n')[k];
      if piece != [] && piece[|piece| - 1] == '\r' then piece == SplitLines(content)[k] + ['\r']
      else SplitLines(content)[k] == piece
  {
    var piece := Split(content, '\n')[k];
    if piece != [] && piece[|piece| - 1] == '\r' {
      assert SplitLines(content)[k] == piece[..|piece| - 1];
      assert piece == piece[..|piece| - 1] + ['\r'];
    }
  }

  /** A line holds no line feed, since its piece holds none. */
  lemma LineHasNoFeed(content: string, k: nat)
    requires k < |Split(content, '\n')|
    ensures '\n' !in SplitLines(content)[k]
  {
    var piece := Split(content, '\n')[k];
    SplitJoin(content, '\n');
    assert '\n' !in piece;
    if SplitLines(content)[k] != piece {
      assert SplitLines(content)[k] == piece[..|piece| - 1];
    }
  }

  /** Without carriage returns the lines are exactly the line-feed pieces,
      and they join back into the content. */
  lemma SplitLinesPlain(content: string)
    requires '\r' !in content
    ensures SplitLines(content) == Split(content, '\n')
    ensures Join(SplitLines(content), '\n') == content
  {
    var pieces := Split(content, '\n');
    var lines := SplitLines(content);
    forall k | 0 <= k < |pieces| ensures lines[k] == pieces[k] {
      PlainLine(content, k);
    }
    assert lines == pieces;
    SplitJoin(content, '\n');
  }

  /** Without carriage returns a line is its line-feed piece. */
  lemma PlainLine(content: string, k: nat)
    requires '\r' !in content && k < |Split(content, '\n')|
    ensures SplitLines(content)[k] == Split(content, '\n')[k]
  {
    var piece := Split(content, '\n')[k];
    if piece != [] {
      PieceChars(content, k, |piece| - 1);
    }
  }

  /** Every character of a line-feed piece occurs in the content. */
  lemma {:induction false} PieceChars(content: string, k: nat, i: nat)
    requires k < |Split(content, '\n')| && i < |Split(content, '\n')[k]|
    ensures Split(content, '\n')[k][i] in content
  {
    var rest := Split(content[1..], '\n');
    if content[0] == '\n' {
      PieceChars(content[1..], k - 1, i);
    } else if k == 0 && i == 0 {
    } else if k == 0 {
      PieceChars(content[1..], 0, i - 1);
    } else {
      PieceChars(content[1..], k, i);
    }
  }

  datatype Loaded = Players(players: seq<RegistrationInput>) | LoadFailed(error: LineError)

  /** Every line parsed, numbered from 1. */
  function ParseAll(lines: seq<string>): (ps: seq<Parsed>)
    ensures |ps| == |lines|
    ensures forall k :: 0 <= k < |lines| ==> ps[k] == ParseLine(lines[k], k + 1)
  {
    seq(|lines|, k requires 0 <= k < |lines| => ParseLine(lines[k], k + 1))
  }

  /** The `forEach` over the parsed lines: blank lines are skipped and the
      first failing line ends the load with its error. */
  function LoadParsed(ps: seq<Parsed>): Loaded
  {
    if ps == [] then Players([])
    else
      match LoadParsed(ps[..|ps| - 1])
      case LoadFailed(e) => LoadFailed(e)
      case Players(players) =>
        match ps[|ps| - 1]
        case Blank => Players(players)
        case Entry(input) => Players(players + [input])
        case Failed(e) => LoadFailed(e)
  }

  /** The outcome of `loadPlayers` on the given lines. */
  function Load(lines: seq<string>): Loaded
  {
    LoadParsed(ParseAll(lines))
  }

  /** The entries among parsed lines, in order. */
  function EntriesOf(ps: seq<Parsed>): seq<RegistrationInput>
  {
    if ps == [] then []
    else (if ps[0].Entry? then [ps[0].input] else []) + EntriesOf(ps[1..])
  }

  lemma {:induction false} EntriesOfAppend(a: seq<Parsed>, b: seq<Parsed>)
    ensures EntriesOf(a + b) == EntriesOf(a) + EntriesOf(b)
  {
    if a == [] {
      assert a + b == b;
    } else {
      assert (a + b)[0] == a[0];
      assert (a + b)[1..] == a[1..] + b;
      EntriesOfAppend(a[1..], b);
    }
  }

  /** The load succeeds iff no line fails, and then yields the entries of
      all lines in file order; otherwise it reports the first failing line. */
  lemma {:induction false} LoadMeaning(ps: seq<Parsed>)
    ensures LoadParsed(ps).Players? <==> forall k :: 0 <= k < |ps| ==> !ps[k].Failed?
    ensures LoadParsed(ps).Players? ==> LoadParsed(ps).players == EntriesOf(ps)
    ensures LoadParsed(ps).LoadFailed? ==>
      exists k :: 0 <= k < |ps| && ps[k] == Failed(LoadParsed(ps).error) &&
                  forall j :: 0 <= j < k ==> !ps[j].Failed?
  {
    if ps != [] {
      var init := ps[..|ps| - 1];
      var last := ps[|ps| - 1];
      LoadMeaning(init);
      assert forall k :: 0 <= k < |init| ==> init[k] == ps[k];
      assert ps == init + [last];
      EntriesOfAppend(init, [last]);
      assert EntriesOf([last]) == (if last.Entry? then [last.input] else []);
      if LoadParsed(init).LoadFailed? {
        var k :| 0 <= k < |init| && init[k] == Failed(LoadParsed(init).error) &&
                 forall j :: 0 <= j < k ==> !init[j].Failed?;
        assert ps[k] == Failed(LoadParsed(ps).error);
      }
    }
  }

  /** A failure stays the result when more lines follow. */
  lemma {:induction false} LoadFailurePersists(ps: seq<Parsed>, k: nat)
    requires k <= |ps| && LoadParsed(ps[..k]).LoadFailed?
    ensures LoadParsed(ps) == LoadParsed(ps[..k])
    decreases |ps| - k
  {
    if k < |ps| {
      assert ps[..k + 1][..k] == ps[..k];
      LoadFailurePersists(ps, k + 1);
    } else {
      assert ps[..k] == ps;
    }
  }

  /** One more parsed line while the load is still going. */
  lemma LoadNext(ps: seq<Parsed>, idx: nat)
    requires idx < |ps| && LoadParsed(ps[..idx]).Players?
    ensures LoadParsed(ps[..idx + 1]) ==
      match ps[idx]
      case Blank => LoadParsed(ps[..idx])
      case Entry(input) => Players(LoadParsed(ps[..idx]).players + [input])
      case Failed(e) => LoadFailed(e)
  {
    assert ps[..idx + 1][..idx] == ps[..idx];
  }

  /** `loadPlayers`, over the file content. */
  method LoadPlayers(content: string) returns (result: Loaded)
    ensures result == Load(SplitLines(content))
  {
    var lines := SplitLines(content);
    ghost var parsedLines := ParseAll(lines);
    var players: seq<RegistrationInput> := [];
    for idx := 0 to |lines|
      invariant LoadParsed(parsedLines[..idx]) == Players(players)
    {
      var parsed := ParseLine(lines[idx], idx + 1);
      assert parsed == parsedLines[idx];
      LoadNext(parsedLines, idx);
      if parsed.Failed? {
        LoadFailurePersists(parsedLines, idx + 1);
        return LoadFailed(parsed.error);
      }
      if parsed.Entry? {
        players := players + [parsed.input];
      }
    }
    assert parsedLines[..|lines|] == parsedLines;
    result := Players(players);
  }

  // ---------------------------------------------------------------------
  // Registering one player

  datatype Outcome = Created | AltAdded | SkippedPrimary | SkippedAlt | RegistrationFailed

  /** `normalizeAllyCode(existingPlayer.allyCode) ?? player.allyCode` */
  function PrimaryFor(existing: PlayerClient.Player, code: string): string
  {
    var stored := AllyCode.Normalize(AllyCode.Text(existing.allyCode));
    if stored.Some? then stored.value else code
  }

  /** `sanitizeAllyCodeList(existingPlayer.altAllyCodes)` */
  function AltsOf(existing: PlayerClient.Player): seq<string>
  {
    AllyCode.SanitizeList(Some(RegisterPlayer.AsValues(existing.altAllyCodes)))
  }

  /** The outcome of one `ensurePlayerRegistration` call and the table after
      it. */
  datatype Step = Step(outcome: Outcome, table: map<string, PlayerClient.PlayerRow>)

  /** `ensurePlayerRegistration` on the table: only the player's own row
      can change; the skipped and failed outcomes change nothing; a created
      row holds the code as primary and no alternates; an alt-added row keeps
      the primary and gains the code after its sanitised alternates. */
  function EnsureStep(table: map<string, PlayerClient.PlayerRow>, player: Registration): (r: Step)
    ensures forall other :: other != player.discordId ==>
      (other in r.table <==> other in table) && (other in table ==> r.table[other] == table[other])
    ensures r.outcome in {SkippedPrimary, SkippedAlt, RegistrationFailed} ==> r.table == table
    ensures r.outcome == Created ==>
      player.discordId !in table && player.discordId in r.table &&
      r.table[player.discordId] == PlayerClient.PlayerRow(player.input.allyCode, Some([]))
    ensures r.outcome == AltAdded ==>
      var existing := PlayerClient.Lookup(table, player.discordId);
      existing.Some? && player.input.allyCode !in AltsOf(existing.value) && player.discordId in r.table &&
      r.table[player.discordId] ==
        PlayerClient.PlayerRow(PrimaryFor(existing.value, player.input.allyCode),
                               Some(AltsOf(existing.value) + [player.input.allyCode]))
  {
    var id := player.discordId;
    var code := player.input.allyCode;
    match PlayerClient.Lookup(table, id)
    case None =>
      if id != "" && code != "" then Step(Created, PlayerClient.Upsert(table, id, code, []))
      else Step(RegistrationFailed, table)
    case Some(existing) =>
      var primaryCode := PrimaryFor(existing, code);
      if primaryCode == code then Step(SkippedPrimary, table)
      else
        var altCodes := AltsOf(existing);
        if code in altCodes then Step(SkippedAlt, table)
        else if primaryCode != "" then Step(AltAdded, PlayerClient.Upsert(table, id, primaryCode, altCodes + [code]))
        else Step(RegistrationFailed, table)
  }

  /** `ensurePlayerRegistration` */
  method EnsurePlayerRegistration(player: Registration, store: PlayerClient.PlayerStore) returns (outcome: Outcome)
    modifies store
    ensures Step(outcome, store.table) == EnsureStep(old(store.table), player)
  {
    var existingPlayer := store.GetPlayer(player.discordId);
    if existingPlayer.None? {
      var created := store.AddUser(PlayerClient.DiscordPlayer(Some(player.discordId), Some(player.input.allyCode), Some([])));
      return if created then Created else RegistrationFailed;
    }
    var existing := existingPlayer.value;
    var stored := AllyCode.Normalize(AllyCode.Text(existing.allyCode));
    var primaryCode := if stored.Some? then stored.value else player.input.allyCode;
    if primaryCode == player.input.allyCode {
      return SkippedPrimary;
    }
    var altCodes := AllyCode.SanitizeList(Some(RegisterPlayer.AsValues(existing.altAllyCodes)));
    if player.input.allyCode in altCodes {
      return SkippedAlt;
    }
    var updated := store.AddUser(PlayerClient.DiscordPlayer(Some(player.discordId), Some(primaryCode),
                                                            Some(altCodes + [player.input.allyCode])));
    outcome := if updated then AltAdded else RegistrationFailed;
  }

  /** The script's decision is the `/register-player` command's with the
      alternate flag set: a new player is created with the code as primary,
      and an existing one is skipped or gets the code appended to the
      alternates exactly when the command would refuse or add it. */
  lemma EnsureStepIsAltRegistration(table: map<string, PlayerClient.PlayerRow>, player: Registration)
    requires player.discordId != "" && AllyCode.IsAllyCode(player.input.allyCode)
    ensures var code := player.input.allyCode;
            var step := EnsureStep(table, player);
            var d := RegisterPlayer.Run(Some(code), Some(true), PlayerClient.Lookup(table, player.discordId));
      (step.outcome == Created <==> d.RegisterNew?) &&
      (step.outcome == SkippedPrimary <==> d == RegisterPlayer.AlreadyPrimaryAlt) &&
      (step.outcome == SkippedAlt <==> d == RegisterPlayer.AlreadyAlternate) &&
      (step.outcome == AltAdded <==> d.AddAlternate?) &&
      step.outcome != RegistrationFailed &&
      (RegisterPlayer.Saves(d) ==>
        step.table == PlayerClient.Upsert(table, player.discordId, d.save.allyCode, d.save.altAllyCodes))
  {
    var code := player.input.allyCode;
    RegisterPlayer.NormalizeAgrees(Some(code));
    AllyCode.NormalizeFixedPoints(code);
    var existing := PlayerClient.Lookup(table, player.discordId);
    if existing.Some? {
      RegisterPlayer.NormalizeAgrees(Some(existing.value.allyCode));
      RegisterPlayer.SanitizeAgrees(existing.value.altAllyCodes);
      var stored := AllyCode.Normalize(AllyCode.Text(existing.value.allyCode));
      assert PrimaryFor(existing.value, code) == RegisterPlayer.EffectivePrimary(code, existing.value);
      assert AltsOf(existing.value) == RegisterPlayer.SanitizeAllyCodes(Some(existing.value.altAllyCodes));
    }
  }

  /** Whether the player's row holds the code, as the script reads rows:
      its primary normalises to the code, or one of its alternates does. */
  predicate Holds(table: map<string, PlayerClient.PlayerRow>, id: string, code: string)
  {
    id in table &&
    var existing := PlayerClient.Player(table[id].allyCode, PlayerClient.OrEmpty(table[id].altAllyCodes));
    AllyCode.Normalize(AllyCode.Text(existing.allyCode)) == Some(code) || code in AltsOf(existing)
  }

  /** A list of valid codes sanitises to itself. */
  lemma {:induction false} SanitizeValid(codes: seq<string>)
    requires forall k :: 0 <= k < |codes| ==> AllyCode.IsAllyCode(codes[k])
    ensures AllyCode.Sanitize(RegisterPlayer.AsValues(codes)) == codes
  {
    if codes != [] {
      var values := RegisterPlayer.AsValues(codes);
      assert values[0] == AllyCode.Text(codes[0]);
      assert values[1..] == RegisterPlayer.AsValues(codes[1..]);
      AllyCode.NormalizeFixedPoints(codes[0]);
      SanitizeValid(codes[1..]);
      assert codes == [codes[0]] + codes[1..];
    }
  }

  /** After a created, alt-added or skipped-alt outcome the player's row holds
      the code; the skipped and failed outcomes leave the table alone, and
      only the player's own row ever changes. */
  lemma EnsureStepStoresCode(table: map<string, PlayerClient.PlayerRow>, player: Registration)
    requires AllyCode.IsAllyCode(player.input.allyCode)
    ensures var step := EnsureStep(table, player);
      (step.outcome in {Created, AltAdded, SkippedAlt} ==> Holds(step.table, player.discordId, player.input.allyCode)) &&
      (step.outcome in {SkippedPrimary, SkippedAlt, RegistrationFailed} ==> step.table == table) &&
      (forall other :: other != player.discordId ==>
         (other in step.table <==> other in table) && (other in table ==> step.table[other] == table[other]))
  {
    var id := player.discordId;
    var code := player.input.allyCode;
    AllyCode.NormalizeFixedPoints(code);
    var existing := PlayerClient.Lookup(table, id);
    if existing.Some? {
      var primaryCode := PrimaryFor(existing.value, code);
      var altCodes := AltsOf(existing.value);
      if primaryCode != code && code !in altCodes {
        AllyCode.NormalizeFixedPoints(primaryCode);
        SanitizeValid(altCodes + [code]);
      }
    }
  }

  /** As written, a row whose stored primary is not a valid code (the ""
      that removing the primary leaves behind) reports "skipped-primary"
      for every valid code that is not already an alternate, although the
      row does not hold the code and nothing is written. */
  lemma SkippedPrimaryWithoutPrimary(table: map<string, PlayerClient.PlayerRow>, player: Registration)
    requires AllyCode.IsAllyCode(player.input.allyCode) && player.discordId != ""
    requires player.discordId in table
    requires AllyCode.Normalize(AllyCode.Text(table[player.discordId].allyCode)).None?
    requires !Holds(table, player.discordId, player.input.allyCode)
    ensures EnsureStep(table, player) == Step(SkippedPrimary, table)
    ensures !Holds(EnsureStep(table, player).table, player.discordId, player.input.allyCode)
  {
  }

  // ---------------------------------------------------------------------
  // Registering the whole list

  /** A player is settled in a table when its row holds its code, or when
      its row has a primary that does not normalise (which, as written,
      reports "skipped-primary" for ever). */
  predicate Settled(table: map<string, PlayerClient.PlayerRow>, player: Registration)
  {
    Holds(table, player.discordId, player.input.allyCode) ||
    (player.discordId in table && AllyCode.Normalize(AllyCode.Text(table[player.discordId].allyCode)).None?)
  }

  /** What the script is handed: a resolved player with a non-empty id and a
      valid code. */
  predicate Resolved(player: Registration)
  {
    player.discordId != "" && AllyCode.IsAllyCode(player.input.allyCode)
  }

  /** One step settles its own player. */
  lemma StepSettles(table: map<string, PlayerClient.PlayerRow>, player: Registration)
    requires Resolved(player)
    ensures Settled(EnsureStep(table, player).table, player)
  {
    EnsureStepStoresCode(table, player);
  }

  /** One step never unsettles another player: the only row it rewrites
      keeps its normalised primary and its sanitised alternates. */
  lemma StepKeepsSettled(table: map<string, PlayerClient.PlayerRow>, player: Registration, other: Registration)
    requires Resolved(player) && Settled(table, other)
    ensures Settled(EnsureStep(table, player).table, other)
  {
    var id := player.discordId;
    var code := player.input.allyCode;
    var existing := PlayerClient.Lookup(table, id);
    if other.discordId == id && existing.Some? {
      var primaryCode := PrimaryFor(existing.value, code);
      var altCodes := AltsOf(existing.value);
      if primaryCode != code && code !in altCodes {
        AllyCode.NormalizeFixedPoints(primaryCode);
        SanitizeValid(altCodes + [code]);
        var after := EnsureStep(table, player).table;
        assert after[id] == PlayerClient.PlayerRow(primaryCode, Some(altCodes + [code]));
        assert AltsOf(PlayerClient.Player(after[id].allyCode, PlayerClient.OrEmpty(after[id].altAllyCodes))) ==
               altCodes + [code];
      }
    }
  }

  /** A settled player is skipped and nothing is written. */
  lemma SettledStepSkips(table: map<string, PlayerClient.PlayerRow>, player: Registration)
    requires Resolved(player) && Settled(table, player)
    ensures EnsureStep(table, player).outcome in {SkippedPrimary, SkippedAlt}
    ensures EnsureStep(table, player).table == table
  {
    AllyCode.NormalizeFixedPoints(player.input.allyCode);
  }

  /** The outcomes of the loop in `registerPlayers` and the table after it:
      the players are processed one after the other, in order. */
  datatype Batch = Batch(outcomes: seq<Outcome>, table: map<string, PlayerClient.PlayerRow>)

  function RunAll(table: map<string, PlayerClient.PlayerRow>, players: seq<Registration>): (b: Batch)
    ensures |b.outcomes| == |players|
  {
    if players == [] then Batch([], table)
    else
      var prior := RunAll(table, players[..|players| - 1]);
      var step := EnsureStep(prior.table, players[|players| - 1]);
      Batch(prior.outcomes + [step.outcome], step.table)
  }

  /** After the batch every resolved player is settled: its code is stored
      in its row unless the row's primary is unusable. */
  lemma {:induction false} RunAllSettles(table: map<string, PlayerClient.PlayerRow>, players: seq<Registration>)
    requires forall k :: 0 <= k < |players| ==> Resolved(players[k])
    ensures forall k :: 0 <= k < |players| ==> Settled(RunAll(table, players).table, players[k])
  {
    if players != [] {
      var init := players[..|players| - 1];
      var last := players[|players| - 1];
      assert forall k :: 0 <= k < |init| ==> init[k] == players[k];
      RunAllSettles(table, init);
      var prior := RunAll(table, init);
      var after := EnsureStep(prior.table, last).table;
      assert RunAll(table, players).table == after;
      forall k | 0 <= k < |players|
        ensures Settled(after, players[k])
      {
        if k < |init| {
          StepKeepsSettled(prior.table, last, init[k]);
        } else {
          StepSettles(prior.table, last);
        }
      }
    }
  }

  /** Running a batch whose players are all settled writes nothing and
      skips every player. */
  lemma {:induction false} SettledBatchSkips(table: map<string, PlayerClient.PlayerRow>, players: seq<Registration>)
    requires forall k :: 0 <= k < |players| ==> Resolved(players[k]) && Settled(table, players[k])
    ensures RunAll(table, players).table == table
    ensures forall k :: 0 <= k < |players| ==> RunAll(table, players).outcomes[k] in {SkippedPrimary, SkippedAlt}
  {
    if players != [] {
      var init := players[..|players| - 1];
      assert forall k :: 0 <= k < |init| ==> init[k] == players[k];
      SettledBatchSkips(table, init);
      SettledStepSkips(table, players[|players| - 1]);
    }
  }

  /** Running the script a second time on the same list changes nothing:
      every player is skipped. */
  lemma RerunChangesNothing(table: map<string, PlayerClient.PlayerRow>, players: seq<Registration>)
    requires forall k :: 0 <= k < |players| ==> Resolved(players[k])
    ensures var first := RunAll(table, players);
      RunAll(first.table, players).table == first.table &&
      forall k :: 0 <= k < |players| ==> RunAll(first.table, players).outcomes[k] in {SkippedPrimary, SkippedAlt}
  {
    RunAllSettles(table, players);
    SettledBatchSkips(RunAll(table, players).table, players);
  }

  /** The counters of `registerPlayers`, one per outcome. */
  datatype Stats = Stats(created: nat, altAdded: nat, skippedPrimary: nat, skippedAlt: nat, failed: nat)

  function Count(stats: Stats, outcome: Outcome): nat
  {
    match outcome
    case Created => stats.created
    case AltAdded => stats.altAdded
    case SkippedPrimary => stats.skippedPrimary
    case SkippedAlt => stats.skippedAlt
    case RegistrationFailed => stats.failed
  }

  function Total(stats: Stats): nat
  {
    stats.created + stats.altAdded + stats.skippedPrimary + stats.skippedAlt + stats.failed
  }

  /** `stats[outcome] += 1` */
  function Bump(stats: Stats, outcome: Outcome): (r: Stats)
    ensures Count(r, outcome) == Count(stats, outcome) + 1
    ensures forall o :: o != outcome ==> Count(r, o) == Count(stats, o)
  {
    match outcome
    case Created => stats.(created := stats.created + 1)
    case AltAdded => stats.(altAdded := stats.altAdded + 1)
    case SkippedPrimary => stats.(skippedPrimary := stats.skippedPrimary + 1)
    case SkippedAlt => stats.(skippedAlt := stats.skippedAlt + 1)
    case RegistrationFailed => stats.(failed := stats.failed + 1)
  }

  /** The counters after a list of outcomes, counted from zero. */
  function Tally(outcomes: seq<Outcome>): Stats
  {
    if outcomes == [] then Stats(0, 0, 0, 0, 0)
    else Bump(Tally(outcomes[..|outcomes| - 1]), outcomes[|outcomes| - 1])
  }

  /** Each counter is the number of its outcome in the list. */
  lemma {:induction false} TallyCounts(outcomes: seq<Outcome>, o: Outcome)
    ensures Count(Tally(outcomes), o) == multiset(outcomes)[o]
  {
    if outcomes != [] {
      var init := outcomes[..|outcomes| - 1];
      assert outcomes == init + [outcomes[|outcomes| - 1]];
      TallyCounts(init, o);
    }
  }

  /** The counters add up to the number of players processed. */
  lemma {:induction false} TallyTotal(outcomes: seq<Outcome>)
    ensures Total(Tally(outcomes)) == |outcomes|
  {
    if outcomes != [] {
      TallyTotal(outcomes[..|outcomes| - 1]);
    }
  }

  lemma TallySnoc(outcomes: seq<Outcome>, outcome: Outcome)
    ensures Tally(outcomes + [outcome]) == Bump(Tally(outcomes), outcome)
  {
    assert (outcomes + [outcome])[..|outcomes|] == outcomes;
  }

  lemma RunAllNext(table: map<string, PlayerClient.PlayerRow>, players: seq<Registration>, idx: nat)
    requires idx < |players|
    ensures var prior := RunAll(table, players[..idx]);
            var step := EnsureStep(prior.table, players[idx]);
      RunAll(table, players[..idx + 1]) == Batch(prior.outcomes + [step.outcome], step.table)
  {
    assert players[..idx + 1][..idx] == players[..idx];
  }

  /** `registerPlayers`: nothing for an empty list; otherwise every player in
      order, returning the counters that are logged. */
  method RegisterPlayers(players: seq<Registration>, store: PlayerClient.PlayerStore) returns (stats: Option<Stats>)
    modifies store
    ensures players == [] ==> stats.None? && store.table == old(store.table)
    ensures players != [] ==> stats == Some(Tally(RunAll(old(store.table), players).outcomes)) &&
                              store.table == RunAll(old(store.table), players).table
  {
    if |players| == 0 {
      return None;
    }
    ghost var start := store.table;
    ghost var outcomes: seq<Outcome> := [];
    var counts := Stats(0, 0, 0, 0, 0);
    for idx := 0 to |players|
      invariant RunAll(start, players[..idx]).outcomes == outcomes
      invariant RunAll(start, players[..idx]).table == store.table
      invariant counts == Tally(outcomes)
    {
      RunAllNext(start, players, idx);
      var outcome := EnsurePlayerRegistration(players[idx], store);
      TallySnoc(outcomes, outcome);
      outcomes := outcomes + [outcome];
      counts := Bump(counts, outcome);
    }
    assert players[..|players|] == players;
    stats := Some(counts);
  }
}
