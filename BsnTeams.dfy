/**
 * BSN Cup teams: the team record, the validation a registration or a roster edit goes
 * through before it is stored, and the `$set` upsert the team collections use.
 * A BSN Cup roster has three players, at Town Hall 18, 17 and 16 in that order.
 */
module BsnTeams {
  import opened Wrappers
  import opened Text
  import opened GameApi

  datatype Player = Player(tag: string, name: string, th: int)

  datatype Status = Pending | Active

  /** A team document. `eliminated` is None while the document has no such field. */
  datatype Team = Team(
    name: string,
    captainTag: string,
    captainName: string,
    players: seq<Player>,
    applicantId: int,
    status: Status,
    eliminated: Option<bool>)

  /** `team.get("eliminated")` is truthy. */
  predicate IsEliminated(t: Team) {
    t.eliminated == Some(true)
  }

  /** The registration form as typed. */
  datatype RegistrationForm = RegistrationForm(
    teamName: string,
    captainTag: string,
    th18Tag: string,
    th17Tag: string,
    th16Tag: string)

  /** Why a submission is refused, in the order the checks run. */
  datatype RegistrationError =
    | DuplicateTags
    | AlreadyRegistered(conflicts: set<(string, string)>)  // (player tag, team name)
    | InvalidTag(tag: string)
    | WrongTownHall(tag: string, name: string, townHall: int, required: int)
    | CaptainNotOnRoster(captainTag: string)

  /** The Town Hall level each roster slot must have. */
  const RequiredTownHalls: seq<int> := [18, 17, 16]

  /** A typed tag is trimmed and upper-cased before use. */
  function NormalizeTag(s: string): string {
    Upper(Strip(s))
  }

  /** A tag as normalisation leaves it: no surrounding white space and no lower-case letter. */
  predicate IsNormalTag(t: string) {
    && (t == [] || (t[0] !in Whitespace && t[|t| - 1] !in Whitespace))
    && forall i :: 0 <= i < |t| ==> !('a' <= t[i] <= 'z')
  }

  /** A normalised tag is normal, and normalising it again changes nothing. */
  lemma NormalizeTagShape(s: string)
    ensures IsNormalTag(NormalizeTag(s)) && NormalizeTag(NormalizeTag(s)) == NormalizeTag(s)
  {
    var x := Strip(s);
    var t := Upper(x);
    StripCharsEnds(s, Whitespace);
    if x != [] {
      UpperCharKeepsSpace(x[0]);
      UpperCharKeepsSpace(x[|x| - 1]);
    }
    assert IsNormalTag(t);
    StripCharsNothingToStrip(t, Whitespace);
    var u := Upper(t);
    forall i | 0 <= i < |t|
      ensures u[i] == t[i]
    {
      assert t[i] == UpperChar(x[i]);
    }
    assert u == t;
  }

  /** Upper-casing neither makes nor unmakes white space. */
  lemma UpperCharKeepsSpace(c: char)
    ensures UpperChar(c) in Whitespace <==> c in Whitespace
  {
  }

  /** `t` is the upper-cased slice of `s` from `a`, everything around it white space. */
  predicate TrimmedAt(s: string, t: string, a: int) {
    && 0 <= a <= |s| - |t|
    && t == Upper(s[a..a + |t|])
    && (forall i :: 0 <= i < a ==> s[i] in Whitespace)
    && (forall i :: a + |t| <= i < |s| ==> s[i] in Whitespace)
  }

  /** A normalised tag is the typed text less its surrounding white space, upper-cased. */
  lemma NormalizeTagKeepsText(s: string)
    ensures exists a :: TrimmedAt(s, NormalizeTag(s), a)
  {
    var a := |s| - |TrimStart(s, Whitespace)|;
    StripCharsSlice(s, Whitespace);
    StripCharsDropsOnly(s, Whitespace);
    assert TrimmedAt(s, NormalizeTag(s), a);
  }

  /** The three roster tags, in slot order, each normal and each the normalisation of the
      text typed in its slot. */
  function RosterTags(th18: string, th17: string, th16: string): (tags: seq<string>)
    ensures |tags| == 3
    ensures tags[0] == NormalizeTag(th18) && tags[1] == NormalizeTag(th17) && tags[2] == NormalizeTag(th16)
    ensures IsNormalTag(tags[0]) && IsNormalTag(tags[1]) && IsNormalTag(tags[2])
  {
    var t18, t17, t16 := NormalizeTag(th18), NormalizeTag(th17), NormalizeTag(th16);
    NormalizeTagShape(th18);
    NormalizeTagShape(th17);
    NormalizeTagShape(th16);
    [t18, t17, t16]
  }

  /** `len(set(tags)) == 3` for a list of three. */
  predicate AllDistinct(tags: seq<string>) {
    forall i, j :: 0 <= i < j < |tags| ==> tags[i] != tags[j]
  }

  /**
   * Every (tag, team) pair where a stored team other than `skip` already has a player whose
   * tag is among `tags`.
   */
  function Conflicts(teams: map<string, Team>, tags: seq<string>, skip: Option<string>): set<(string, string)> {
    set n, i | n in teams && 0 <= i < |teams[n].players| && teams[n].players[i].tag in tags
               && skip != Some(teams[n].name) :: (teams[n].players[i].tag, teams[n].name)
  }

  /** No pair is reported exactly when no other team has one of the tags on its roster. */
  lemma ConflictsEmptyIff(teams: map<string, Team>, tags: seq<string>, skip: Option<string>)
    ensures Conflicts(teams, tags, skip) == {} <==>
      forall n, i :: n in teams && 0 <= i < |teams[n].players| && skip != Some(teams[n].name)
        ==> teams[n].players[i].tag !in tags
  {
    forall n, i | n in teams && 0 <= i < |teams[n].players| && skip != Some(teams[n].name)
                  && teams[n].players[i].tag in tags
      ensures (teams[n].players[i].tag, teams[n].name) in Conflicts(teams, tags, skip)
    {
    }
  }

  /** Slot `k` is the first to fail, and `e` is its error. */
  predicate SlotFails(api: PlayerApi, tags: seq<string>, required: seq<int>, k: int, e: RegistrationError)
    requires |tags| == |required| && 0 <= k < |tags|
  {
    && (forall j :: 0 <= j < k ==> tags[j] in api && api[tags[j]].townHall == required[j])
    && (if tags[k] !in api then e == InvalidTag(tags[k])
        else
          var p := api[tags[k]];
          p.townHall != required[k] && e == WrongTownHall(tags[k], p.name, p.townHall, required[k]))
  }

  /** Looks the tags up in slot order, stopping at the first unknown tag or wrong Town Hall. */
  function FetchRoster(api: PlayerApi, tags: seq<string>, required: seq<int>): (r: Result<seq<Player>, RegistrationError>)
    requires |tags| == |required|
    ensures r.Ok? ==>
      && |r.value| == |tags|
      && forall k :: 0 <= k < |tags| ==>
           && tags[k] in api
           && r.value[k] == Player(api[tags[k]].tag, api[tags[k]].name, api[tags[k]].townHall)
           && r.value[k].th == required[k]
    ensures r.Ok? <==> forall k :: 0 <= k < |tags| ==> tags[k] in api && api[tags[k]].townHall == required[k]
  {
    if tags == [] then Ok([])
    else if tags[0] !in api then Err(InvalidTag(tags[0]))
    else
      var p := api[tags[0]];
      if p.townHall != required[0] then Err(WrongTownHall(tags[0], p.name, p.townHall, required[0]))
      else
        var rest := FetchRoster(api, tags[1..], required[1..]);
        assert forall k :: 1 <= k < |tags| ==> tags[k] == tags[1..][k - 1] && required[k] == required[1..][k - 1];
        if rest.Ok? then Ok([Player(p.tag, p.name, p.townHall)] + rest.value) else rest
  }

  /** A failed lookup reports the first slot that fails, with that slot's error. */
  lemma {:induction false} FetchRosterFailsAt(api: PlayerApi, tags: seq<string>, required: seq<int>)
    requires |tags| == |required|
    ensures var r := FetchRoster(api, tags, required);
      r.Err? ==> exists k :: 0 <= k < |tags| && SlotFails(api, tags, required, k, r.error)
  {
    var r := FetchRoster(api, tags, required);
    if tags != [] && r.Err? {
      if tags[0] !in api || api[tags[0]].townHall != required[0] {
        assert SlotFails(api, tags, required, 0, r.error);
      } else {
        FetchRosterFailsAt(api, tags[1..], required[1..]);
        var k :| 0 <= k < |tags| - 1 && SlotFails(api, tags[1..], required[1..], k, r.error);
        assert SlotFails(api, tags, required, k + 1, r.error);
      }
    }
  }

  /** The name of the first roster player whose tag is the captain tag. */
  function FindCaptain(players: seq<Player>, captainTag: string): (name: Option<string>)
    ensures name.None? <==> forall i :: 0 <= i < |players| ==> players[i].tag != captainTag
    ensures name.Some? ==>
      (exists i :: 0 <= i < |players| && players[i].tag == captainTag && players[i].name == name.value
                   && forall j :: 0 <= j < i ==> players[j].tag != captainTag)
  {
    if players == [] then None
    else if players[0].tag == captainTag then Some(players[0].name)
    else
      var r := FindCaptain(players[1..], captainTag);
      if r.Some? then
        var i :| 0 <= i < |players| - 1 && players[1..][i].tag == captainTag
          && players[1..][i].name == r.value && forall j :: 0 <= j < i ==> players[1..][j].tag != captainTag;
        assert players[i + 1].tag == captainTag && forall j :: 0 <= j < i + 1 ==> players[j].tag != captainTag;
        r
      else
        assert forall i :: 1 <= i < |players| ==> players[i] == players[1..][i - 1];
        r
  }

  /**
   * The checks a registration and a roster edit share, in the order they run: the three tags
   * must differ, none may already play for a stored team other than `skip`, and each must be a
   * known player at its slot's Town Hall. The result is the fetched roster.
   */
  function ValidateRoster(teams: map<string, Team>, tags: seq<string>, skip: Option<string>, api: PlayerApi)
    : Result<seq<Player>, RegistrationError>
    requires |tags| == |RequiredTownHalls|
  {
    if !AllDistinct(tags) then Err(DuplicateTags)
    else
      var conflicts := Conflicts(teams, tags, skip);
      if conflicts != {} then Err(AlreadyRegistered(conflicts))
      else FetchRoster(api, tags, RequiredTownHalls)
  }

  /** A roster passes exactly when all three rules hold; it is then the API's players at the
      required Town Halls, in slot order. */
  lemma ValidateRosterAccepts(teams: map<string, Team>, tags: seq<string>, skip: Option<string>, api: PlayerApi)
    requires |tags| == |RequiredTownHalls|
    ensures var r := ValidateRoster(teams, tags, skip, api);
      && (r.Ok? <==>
            && AllDistinct(tags)
            && (forall n, i :: n in teams && 0 <= i < |teams[n].players| && skip != Some(teams[n].name)
                  ==> teams[n].players[i].tag !in tags)
            && (forall k :: 0 <= k < |tags| ==> tags[k] in api && api[tags[k]].townHall == RequiredTownHalls[k]))
      && (r.Ok? ==> |r.value| == 3 && forall k :: 0 <= k < 3 ==>
            r.value[k] == Player(api[tags[k]].tag, api[tags[k]].name, RequiredTownHalls[k]))
  {
    ConflictsEmptyIff(teams, tags, skip);
  }

  /** A refusal names the first rule broken: duplicate tags, then the players already on other
      teams (every such player, with their team), then the first slot whose tag is unknown or
      at the wrong Town Hall. */
  lemma ValidateRosterRefuses(teams: map<string, Team>, tags: seq<string>, skip: Option<string>, api: PlayerApi)
    requires |tags| == |RequiredTownHalls|
    ensures var r := ValidateRoster(teams, tags, skip, api);
      && (r == Err(DuplicateTags) <==> !AllDistinct(tags))
      && (r.Err? && r.error.AlreadyRegistered? ==>
            AllDistinct(tags) && r.error.conflicts != {} && r.error.conflicts == Conflicts(teams, tags, skip))
      && (r.Err? && (r.error.InvalidTag? || r.error.WrongTownHall?) ==>
            && AllDistinct(tags) && Conflicts(teams, tags, skip) == {}
            && exists k :: 0 <= k < 3 && SlotFails(api, tags, RequiredTownHalls, k, r.error))
  {
    FetchRosterFailsAt(api, tags, RequiredTownHalls);
  }

  /**
   * A registration submitted by `applicantId`: the roster checks, then the captain tag must be
   * one of the fetched players. The accepted team is pending approval.
   */
  function Register(teams: map<string, Team>, form: RegistrationForm, applicantId: int, api: PlayerApi)
    : Result<Team, RegistrationError>
  {
    var captainTag := NormalizeTag(form.captainTag);
    match ValidateRoster(teams, RosterTags(form.th18Tag, form.th17Tag, form.th16Tag), None, api)
    case Err(e) => Err(e)
    case Ok(players) =>
      match FindCaptain(players, captainTag)
      case None => Err(CaptainNotOnRoster(captainTag))
      case Some(captainName) =>
        Ok(Team(form.teamName, captainTag, captainName, players, applicantId, Pending, None))
  }

  /** An accepted registration passed the roster checks, its captain is on its roster under the
      stored captain name, and it waits for approval. */
  lemma RegisterAccepted(teams: map<string, Team>, form: RegistrationForm, applicantId: int, api: PlayerApi)
    requires Register(teams, form, applicantId, api).Ok?
    ensures var t := Register(teams, form, applicantId, api).value;
      var tags := RosterTags(form.th18Tag, form.th17Tag, form.th16Tag);
      && ValidateRoster(teams, tags, None, api) == Ok(t.players)
      && t.captainTag == NormalizeTag(form.captainTag)
      && (exists i :: 0 <= i < |t.players| && t.players[i].tag == t.captainTag && t.players[i].name == t.captainName)
      && t.name == form.teamName && t.applicantId == applicantId
      && t.status == Pending && t.eliminated == None
  {
  }

  /** A registration whose roster passes is refused only when no fetched player has the
      captain tag. */
  lemma RegisterCaptainRule(teams: map<string, Team>, form: RegistrationForm, applicantId: int, api: PlayerApi)
    requires ValidateRoster(teams, RosterTags(form.th18Tag, form.th17Tag, form.th16Tag), None, api).Ok?
    ensures var players := ValidateRoster(teams, RosterTags(form.th18Tag, form.th17Tag, form.th16Tag), None, api).value;
      var r := Register(teams, form, applicantId, api);
      && (r.Err? <==> forall i :: 0 <= i < |players| ==> players[i].tag != NormalizeTag(form.captainTag))
      && (r.Err? ==> r.error == CaptainNotOnRoster(NormalizeTag(form.captainTag)))
  {
  }

  /** The outcome of a valid roster edit: the edited record, and whether the record under the
      old name is deleted first because the team was renamed. */
  datatype Edited = Edited(team: Team, dropOldName: bool)

  /** The tags of a roster, in order. */
  function TagsOf(players: seq<Player>): (tags: seq<string>)
    ensures |tags| == |players| && forall i :: 0 <= i < |players| ==> tags[i] == players[i].tag
  {
    seq(|players|, i requires 0 <= i < |players| => players[i].tag)
  }

  /**
   * A roster edit of `current` to `newName` and three typed tags, checked like a registration
   * except that the edited team's own players are no conflict. The captain tag is kept when
   * the captain is still on the roster, else it passes to the TH18 player; the stored captain
   * name is left as it was.
   */
  function EditTeam(teams: map<string, Team>, current: Team, newName: string,
                    th18: string, th17: string, th16: string, api: PlayerApi): Result<Edited, RegistrationError>
  {
    match ValidateRoster(teams, RosterTags(th18, th17, th16), Some(current.name), api)
    case Err(e) => Err(e)
    case Ok(players) =>
      var captainTag := if current.captainTag in TagsOf(players) then current.captainTag else players[0].tag;
      Ok(Edited(current.(name := newName, players := players, captainTag := captainTag),
                newName != current.name))
  }

  /** An accepted edit passed the roster checks, keeps a captain who is still on the roster,
      always leaves the captain tag on the roster, and changes no field but name, roster and
      captain tag. */
  lemma EditTeamAccepted(teams: map<string, Team>, current: Team, newName: string,
                         th18: string, th17: string, th16: string, api: PlayerApi)
    requires EditTeam(teams, current, newName, th18, th17, th16, api).Ok?
    ensures var e := EditTeam(teams, current, newName, th18, th17, th16, api).value;
      && ValidateRoster(teams, RosterTags(th18, th17, th16), Some(current.name), api) == Ok(e.team.players)
      && (exists i :: 0 <= i < |e.team.players| && e.team.players[i].tag == e.team.captainTag)
      && ((exists i :: 0 <= i < |e.team.players| && e.team.players[i].tag == current.captainTag) ==>
            e.team.captainTag == current.captainTag)
      && e.team == current.(name := newName, players := e.team.players, captainTag := e.team.captainTag)
      && e.dropOldName == (newName != current.name)
  {
    var players := ValidateRoster(teams, RosterTags(th18, th17, th16), Some(current.name), api).value;
    ValidateRosterAccepts(teams, RosterTags(th18, th17, th16), Some(current.name), api);
    if current.captainTag in TagsOf(players) {
      var i :| 0 <= i < 3 && TagsOf(players)[i] == current.captainTag;
      assert players[i].tag == current.captainTag;
    } else {
      assert players[0].tag == TagsOf(players)[0];
    }
  }

  /**
   * `update_one({"name": t.name}, {"$set": t}, upsert=True)`: a new name is inserted; an
   * existing document takes every field of `t`, and keeps its `eliminated` flag when `t`
   * has none.
   */
  function Upsert(store: map<string, Team>, t: Team): (r: map<string, Team>)
    ensures r.Keys == store.Keys + {t.name}
    ensures forall n :: n in store && n != t.name ==> r[n] == store[n]
    ensures r[t.name] == if t.eliminated.None? && t.name in store then t.(eliminated := store[t.name].eliminated) else t
  {
    if t.name in store && t.eliminated.None? then store[t.name := t.(eliminated := store[t.name].eliminated)]
    else store[t.name := t]
  }

  /** Every stored team sits under its own name. */
  predicate KeyedByName(store: map<string, Team>) {
    forall n :: n in store ==> store[n].name == n
  }

  /** The upsert keeps every team under its own name. */
  lemma UpsertKeyedByName(store: map<string, Team>, t: Team)
    requires KeyedByName(store)
    ensures KeyedByName(Upsert(store, t))
  {
  }
}
