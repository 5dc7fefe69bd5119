/**
 * The BSN Cup tournament state: the `bsn_teams`, `bsn_pending_teams` and `bsn_matches`
 * collections, and the staff actions that change them — submitting, approving and rejecting
 * a registration, editing a roster, resetting the tournament and generating the next
 * single-elimination round.
 */
module BsnCup {
  import opened Wrappers
  import opened GameApi
  import opened BsnTeams
  import opened BsnMatches

  /** A team after a reset: an eliminated team is reinstated, any other is left alone. */
  function Reinstated(t: Team): Team {
    if IsEliminated(t) then t.(eliminated := Some(false)) else t
  }

  /** The teams after each team named in `losers` is marked eliminated. */
  function Eliminated(teams: map<string, Team>, losers: set<string>): map<string, Team> {
    map n | n in teams :: if teams[n].name in losers then teams[n].(eliminated := Some(true)) else teams[n]
  }

  /** The names of the teams not eliminated. */
  function ActiveNames(teams: map<string, Team>): set<string> {
    set n | n in teams && !IsEliminated(teams[n])
  }

  /** A team is out after the losers are marked exactly when it was out before or lost; the
      active teams are the former ones less the losers; nothing but the flag changes. */
  lemma EliminationRule(teams: map<string, Team>, losers: set<string>)
    requires KeyedByName(teams)
    ensures var after := Eliminated(teams, losers);
      && after.Keys == teams.Keys
      && (forall n :: n in teams ==> (IsEliminated(after[n]) <==> IsEliminated(teams[n]) || n in losers))
      && (forall n :: n in teams ==> after[n] == teams[n] || after[n] == teams[n].(eliminated := Some(true)))
      && ActiveNames(after) == ActiveNames(teams) - losers
  {
    var after := Eliminated(teams, losers);
    assert forall n :: n in ActiveNames(after) <==> n in ActiveNames(teams) - losers;
  }

  /** Every team plays at most one match of round `r`. */
  ghost predicate OneMatchPerTeam(ms: map<string, Match>, r: nat) {
    forall a, b, t :: a in ms && b in ms && a != b && ms[a].round == r && ms[b].round == r && Plays(ms[a], t)
      ==> !Plays(ms[b], t)
  }

  /** A generated round gives every team at most one match of that round, when the teams
      it pairs are distinct: the stored matches all belong to earlier rounds, and the round's
      own matches pair each team once. */
  lemma GeneratedRoundOneMatchPerTeam(ms: map<string, Match>, order: seq<string>)
    requires NextRound(ms).Ok? && Distinct(order)
    ensures OneMatchPerTeam(SaveAll(ms, Pairing(NextRound(ms).value, order)), NextRound(ms).value)
  {
    var next := NextRound(ms).value;
    var created := Pairing(next, order);
    var after := SaveAll(ms, created);
    NextRoundGate(ms);
    SaveAllValues(ms, created);
    PairingPlaysEachTeamOnce(next, order);
    forall a, b, t | a in after && b in after && a != b && after[a].round == next && after[b].round == next
                     && Plays(after[a], t)
      ensures !Plays(after[b], t)
    {
      assert after[a] in created && after[a].id == a;
      assert after[b] in created && after[b].id == b;
      var j :| 0 <= j < |created| && created[j] == after[a];
      var k :| 0 <= k < |created| && created[k] == after[b];
      assert j != k;
    }
  }

  /** The side that won its match of round `r` is not among the round's losers, when it played
      no other match that round and did not play itself. */
  lemma WinnerSurvives(ms: map<string, Match>, r: nat, id: string)
    requires OneMatchPerTeam(ms, r)
    requires id in ms && ms[id].round == r && HasWinner(ms[id]) && ms[id].team1 != ms[id].team2
    requires ms[id].winner == Some(ms[id].team1) || ms[id].winner == Some(ms[id].team2)
    ensures ms[id].winner.value !in Losers(ms, r)
  {
    var w := ms[id].winner.value;
    if w in Losers(ms, r) {
      var other :| other in ms && ms[other].round == r && HasWinner(ms[other]) && LoserOf(ms[other]) == w;
      assert Plays(ms[other], w);
      assert Plays(ms[id], w);
      if other == id {
        LoserIsTheOtherSide(ms[id]);
      }
    }
  }

  /** After a reset no team is eliminated, every team is active again, and no other field of
      any team changes. */
  lemma ResetReinstatesAll(teams: map<string, Team>)
    ensures var after := map n | n in teams :: Reinstated(teams[n]);
      && ActiveNames(after) == teams.Keys
      && forall n :: n in teams ==> after[n] == teams[n].(eliminated := after[n].eliminated)
  {
    var after := map n | n in teams :: Reinstated(teams[n]);
    assert forall n :: n in teams ==> !IsEliminated(after[n]);
  }

  /** `order` lists every element of `s` exactly once. */
  predicate IsArrangementOf(order: seq<string>, s: set<string>) {
    && Distinct(order)
    && (forall i :: 0 <= i < |order| ==> order[i] in s)
    && (forall x :: x in s ==> x in order)
  }

  /** An arrangement of the active teams has one entry per active team. */
  lemma {:induction false} ArrangementSize(order: seq<string>, s: set<string>)
    requires IsArrangementOf(order, s)
    ensures |order| == |s|
    decreases |order|
  {
    if order != [] {
      var x := order[|order| - 1];
      var init := order[..|order| - 1];
      assert IsArrangementOf(init, s - {x}) by {
        forall y | y in s - {x}
          ensures y in init
        {
          var i :| 0 <= i < |order| && order[i] == y;
          assert i != |order| - 1;
          assert init[i] == y;
        }
        forall i | 0 <= i < |init|
          ensures init[i] in s - {x}
        {
          assert init[i] == order[i];
        }
      }
      ArrangementSize(init, s - {x});
    } else {
      assert forall x :: x !in s;
      assert s == {};
    }
  }

  /** A generated round: its number, the order the shuffle put the active teams in, the
      matches created, and the team left without a match. */
  datatype Generated = Generated(round: nat, order: seq<string>, created: seq<Match>, bye: Option<string>)

  class Tournament {
    var teams: map<string, Team>
    var pending: map<string, Team>
    var matches: map<string, Match>

    /** Teams and pending teams sit under their names, matches under their ids. */
    ghost predicate Valid()
      reads this
    {
      && KeyedByName(teams)
      && KeyedByName(pending)
      && forall id :: id in matches ==> matches[id].id == id
    }

    constructor ()
      ensures Valid()
      ensures teams == map[] && pending == map[] && matches == map[]
    {
      teams, pending, matches := map[], map[], map[];
    }

    /** The registration form's submit: a valid registration is saved as pending; a refused
        one changes nothing. */
    method Submit(form: RegistrationForm, applicantId: int, api: PlayerApi) returns (r: Result<Team, RegistrationError>)
      requires Valid()
      modifies this
      ensures Valid()
      ensures r == Register(old(teams), form, applicantId, api)
      ensures r.Ok? ==> pending == Upsert(old(pending), r.value)
      ensures r.Err? ==> pending == old(pending)
      ensures teams == old(teams) && matches == old(matches)
    {
      r := Register(teams, form, applicantId, api);
      if r.Ok? {
        SavePending(r.value);
      }
    }

    /** The upsert of a team into the pending collection. */
    method SavePending(t: Team)
      requires Valid()
      modifies this
      ensures Valid()
      ensures pending == Upsert(old(pending), t)
      ensures teams == old(teams) && matches == old(matches)
    {
      UpsertKeyedByName(pending, t);
      pending := Upsert(pending, t);
    }

    /** "Accept": the pending team becomes an active team and leaves the pending list; an
        unknown name is reported and changes nothing. */
    method Approve(name: string) returns (approved: bool)
      requires Valid()
      modifies this
      ensures Valid()
      ensures approved <==> name in old(pending)
      ensures approved ==>
        && teams == Upsert(old(teams), old(pending)[name].(status := Active))
        && pending == old(pending) - {name}
      ensures !approved ==> teams == old(teams) && pending == old(pending)
      ensures matches == old(matches)
    {
      if name !in pending {
        return false;
      }
      var t := pending[name].(status := Active);
      UpsertKeyedByName(teams, t);
      teams := Upsert(teams, t);
      pending := pending - {name};
      approved := true;
    }

    /** "Reject": the pending registration is deleted. */
    method Reject(name: string)
      requires Valid()
      modifies this
      ensures Valid()
      ensures pending == old(pending) - {name}
      ensures teams == old(teams) && matches == old(matches)
    {
      pending := pending - {name};
    }

    /** The edit modal's submit for the stored team `current`: a valid edit of a renamed team
        first deletes the record under the old name. */
    method SubmitEdit(current: Team, newName: string, th18: string, th17: string, th16: string, api: PlayerApi)
      returns (r: Result<Edited, RegistrationError>)
      requires Valid()
      requires current.name in teams && teams[current.name] == current
      modifies this
      ensures Valid()
      ensures r == EditTeam(old(teams), current, newName, th18, th17, th16, api)
      ensures r.Ok? && r.value.dropOldName ==> teams == old(teams) - {current.name}
      ensures !(r.Ok? && r.value.dropOldName) ==> teams == old(teams)
      ensures pending == old(pending) && matches == old(matches)
    {
      r := EditTeam(teams, current, newName, th18, th17, th16, api);
      if r.Ok? && r.value.dropOldName {
        teams := teams - {current.name};
      }
    }

    /** "CONFIRM RESET": every match is deleted and every eliminated team is reinstated. */
    method Reset()
      requires Valid()
      modifies this
      ensures Valid()
      ensures matches == map[]
      ensures teams == map n | n in old(teams) :: Reinstated(old(teams)[n])
      ensures pending == old(pending)
    {
      var ids := matches.Keys;
      while ids != {}
        invariant matches.Keys == ids
        invariant forall id :: id in matches ==> matches[id].id == id
        invariant teams == old(teams) && pending == old(pending)
        decreases ids
      {
        var id :| id in ids;
        matches := matches - {id};
        ids := ids - {id};
      }
      ghost var before := teams;
      var names := teams.Keys;
      while names != {}
        invariant names <= before.Keys && teams.Keys == before.Keys
        invariant forall n :: n in before ==> teams[n] == if n in names then before[n] else Reinstated(before[n])
        invariant KeyedByName(teams)
        invariant matches == map[] && pending == old(pending)
        decreases names
      {
        var n :| n in names;
        if IsEliminated(teams[n]) {
          UpsertKeyedByName(teams, teams[n].(eliminated := Some(false)));
          teams := Upsert(teams, teams[n].(eliminated := Some(false)));
        }
        names := names - {n};
      }
    }

    /** The round gate: the highest stored round, found by a scan, decides. */
    method RoundGate() returns (r: Result<nat, GenerationError>)
      ensures r == NextRound(matches)
    {
      if matches == map[] {
        return Ok(1);
      }
      var ids := matches.Keys;
      var first :| first in ids;
      var top := matches[first].round;
      ids := ids - {first};
      while ids != {}
        invariant ids <= matches.Keys
        invariant first in matches && matches[first].round <= top
        invariant exists id :: id in matches && matches[id].round == top
        invariant forall id :: id in matches && id !in ids ==> matches[id].round <= top
        decreases ids
      {
        var id :| id in ids;
        if matches[id].round > top {
          top := matches[id].round;
        }
        ids := ids - {id};
      }
      MaxRoundUnique(matches, top);
      if RoundComplete(matches, top) {
        r := Ok(top + 1);
      } else {
        r := Err(RoundIncomplete(top));
      }
    }

    /** Marks every team named in `losers` eliminated, one save per team. */
    method EliminateLosers(losers: set<string>)
      requires Valid()
      modifies this
      ensures Valid()
      ensures teams == Eliminated(old(teams), losers)
      ensures pending == old(pending) && matches == old(matches)
    {
      ghost var before := teams;
      var names := teams.Keys;
      while names != {}
        invariant names <= before.Keys && teams.Keys == before.Keys
        invariant forall n :: n in before ==>
          teams[n] == (if n in names then before[n] else Eliminated(before, losers)[n])
        invariant KeyedByName(teams)
        invariant pending == old(pending) && matches == old(matches)
        decreases names
      {
        var n :| n in names;
        if teams[n].name in losers {
          UpsertKeyedByName(teams, teams[n].(eliminated := Some(true)));
          teams := Upsert(teams, teams[n].(eliminated := Some(true)));
        }
        names := names - {n};
      }
    }

    /** The active teams, in an order the model leaves open (the source shuffles them). */
    method ListActive() returns (order: seq<string>)
      ensures IsArrangementOf(order, ActiveNames(teams))
    {
      var remaining := ActiveNames(teams);
      order := [];
      while remaining != {}
        invariant remaining <= ActiveNames(teams)
        invariant Distinct(order)
        invariant forall i :: 0 <= i < |order| ==> order[i] in ActiveNames(teams) && order[i] !in remaining
        invariant forall x :: x in ActiveNames(teams) ==> x in remaining || x in order
        decreases remaining
      {
        var x :| x in remaining;
        order := order + [x];
        remaining := remaining - {x};
      }
    }

    /** Pairs the teams two by two in order and saves each match; an odd last team gets none. */
    method SaveRound(round: nat, order: seq<string>) returns (created: seq<Match>, bye: Option<string>)
      requires Valid()
      modifies this
      ensures Valid()
      ensures created == Pairing(round, order) && bye == Bye(order)
      ensures matches == SaveAll(old(matches), created)
      ensures teams == old(teams) && pending == old(pending)
    {
      created := [];
      bye := None;
      var i := 0;
      while i < |order|
        invariant 0 <= i <= |order| && i == 2 * |created|
        invariant PairedSoFar(round, order, created)
        invariant matches == SaveAll(old(matches), created)
        invariant forall id :: id in matches ==> matches[id].id == id
        invariant teams == old(teams) && pending == old(pending)
        invariant bye == None
      {
        if i + 1 >= |order| {
          bye := Some(order[i]);
          break;
        }
        var n := |created|;
        var m := NewMatch(round, n + 1, order[2 * n], order[2 * n + 1]);
        PairedSoFarExtend(round, order, created);
        created := created + [m];
        matches := matches[m.id := m];
        i := i + 2;
      }
      PairedSoFarComplete(round, order, created);
    }

    /**
     * "Generate Single Elim Round": refused while the highest round has an open match;
     * otherwise, from round 2 on, the losers of the previous round are eliminated first (and
     * stay eliminated even when the round is then refused for lack of teams); with at least
     * two active teams, they are paired in shuffled order into the next round.
     */
    method GenerateRound() returns (r: Result<Generated, GenerationError>)
      requires Valid()
      modifies this
      ensures Valid()
      ensures pending == old(pending)
      ensures NextRound(old(matches)).Err? ==>
        r == Err(NextRound(old(matches)).error) && teams == old(teams) && matches == old(matches)
      ensures NextRound(old(matches)).Ok? ==>
        var next := NextRound(old(matches)).value;
        && teams == (if next > 1 then Eliminated(old(teams), Losers(old(matches), next - 1)) else old(teams))
        && (|ActiveNames(teams)| < 2 ==> r == Err(NotEnoughTeams) && matches == old(matches))
        && (|ActiveNames(teams)| >= 2 ==>
              && r.Ok? && r.value.round == next
              && IsArrangementOf(r.value.order, ActiveNames(teams))
              && r.value.created == Pairing(next, r.value.order)
              && r.value.bye == Bye(r.value.order)
              && matches == SaveAll(old(matches), r.value.created)
              && OneMatchPerTeam(matches, next))
    {
      var gate := RoundGate();
      if gate.Err? {
        return Err(gate.error);
      }
      var next := gate.value;
      if next > 1 {
        EliminateLosers(Losers(matches, next - 1));
      }
      var order := ListActive();
      ArrangementSize(order, ActiveNames(teams));
      if |order| < 2 {
        return Err(NotEnoughTeams);
      }
      GeneratedRoundOneMatchPerTeam(matches, order);
      var created, bye := SaveRound(next, order);
      r := Ok(Generated(next, order, created, bye));
    }
  }

  /** A highest round found any way is the one the gate speaks of. */
  lemma MaxRoundUnique(ms: map<string, Match>, r: nat)
    requires IsMaxRound(ms, r)
    ensures ms != map[] && MaxRound(ms) == r
  {
    var w :| w in ms && ms[w].round == r;
    var v :| v in ms && ms[v].round == MaxRound(ms);
  }
}
