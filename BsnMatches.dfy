/**
 * BSN Cup matches: the match record, the round gate and loser rule of single elimination,
 * how a shuffled list of surviving teams is paired into a round, the `$set` upsert of the
 * matches collection, the page-playoff semi-final gate, and the bracket's match line.
 */
module BsnMatches {
  import opened Wrappers
  import opened Text

  /** A match document. `winner` is None until a result is recorded; `bracket` is set only on
      page-playoff matches. */
  datatype Match = Match(
    id: string,
    title: string,
    team1: string,
    team2: string,
    round: nat,
    completed: bool,
    winner: Option<string>,
    bracket: Option<string>)

  /** `if m["winner"]`: a winner is recorded and is not the empty string. */
  predicate HasWinner(m: Match) {
    m.winner.Some? && m.winner.value != ""
  }

  /** The side that did not win: team1 when team2 won, team2 otherwise. */
  function LoserOf(m: Match): string {
    if m.winner == Some(m.team2) then m.team1 else m.team2
  }

  /** When the recorded winner is one of the two sides, the loser is the other one. */
  lemma LoserIsTheOtherSide(m: Match)
    requires m.winner == Some(m.team1) || m.winner == Some(m.team2)
    requires m.team1 != m.team2
    ensures LoserOf(m) != m.winner.value
    ensures LoserOf(m) == m.team1 || LoserOf(m) == m.team2
  {
  }

  // ---------------------------------------------------------------- the round gate

  /** `r` is the highest round of any stored match. */
  predicate IsMaxRound(ms: map<string, Match>, r: nat) {
    && (exists id :: id in ms && ms[id].round == r)
    && forall id :: id in ms ==> ms[id].round <= r
  }

  /** Every stored match of round `r` is completed. */
  predicate RoundComplete(ms: map<string, Match>, r: nat) {
    forall id :: id in ms && ms[id].round == r ==> ms[id].completed
  }

  /** A non-empty collection of matches has a highest round. */
  lemma {:induction false} MaxRoundExists(ms: map<string, Match>)
    requires ms != map[]
    ensures exists r :: IsMaxRound(ms, r)
    decreases |ms|
  {
    var id :| id in ms;
    var rest := ms - {id};
    assert rest.Keys == ms.Keys - {id};
    if rest == map[] {
      forall j | j in ms
        ensures ms[j].round <= ms[id].round
      {
        assert j !in rest;
      }
      assert IsMaxRound(ms, ms[id].round);
    } else {
      MaxRoundExists(rest);
      var r :| IsMaxRound(rest, r);
      var other :| other in rest && rest[other].round == r;
      var top := if ms[id].round > r then ms[id].round else r;
      forall j | j in ms
        ensures ms[j].round <= top
      {
        if j != id {
          assert j in rest;
        }
      }
      if ms[id].round > r {
        assert ms[id].round == top;
      } else {
        assert other in ms && ms[other].round == top;
      }
      assert IsMaxRound(ms, top);
    }
  }

  /** The highest round of a non-empty collection of matches. */
  ghost function MaxRound(ms: map<string, Match>): (r: nat)
    requires ms != map[]
    ensures IsMaxRound(ms, r)
  {
    MaxRoundExists(ms);
    var r :| IsMaxRound(ms, r); r
  }

  /** Why no single-elimination round is generated. */
  datatype GenerationError = RoundIncomplete(round: nat) | NotEnoughTeams

  /** The round a generation would create: 1 when no match exists, the round after the highest
      one when that is complete, and a refusal naming the highest round otherwise. */
  ghost function NextRound(ms: map<string, Match>): Result<nat, GenerationError> {
    if ms == map[] then Ok(1)
    else
      var r := MaxRound(ms);
      if RoundComplete(ms, r) then Ok(r + 1) else Err(RoundIncomplete(r))
  }

  /** A round is generated only once the highest round so far is fully played, and it is
      always one higher than any round there is. */
  lemma NextRoundGate(ms: map<string, Match>)
    ensures NextRound(ms).Ok? <==> forall id :: id in ms && IsMaxRound(ms, ms[id].round) ==> ms[id].completed
    ensures NextRound(ms).Ok? ==> NextRound(ms).value >= 1 && forall id :: id in ms ==> ms[id].round < NextRound(ms).value
    ensures NextRound(ms).Err? ==> exists id :: id in ms && IsMaxRound(ms, ms[id].round) && !ms[id].completed
  {
    if ms != map[] {
      var r := MaxRound(ms);
      forall id | id in ms && IsMaxRound(ms, ms[id].round)
        ensures ms[id].round == r
      {
        var w :| w in ms && ms[w].round == r;
        assert ms[w].round <= ms[id].round;
      }
    }
  }

  /** The losers of the decided matches of round `r`. */
  function Losers(ms: map<string, Match>, r: nat): set<string> {
    set id | id in ms && ms[id].round == r && HasWinner(ms[id]) :: LoserOf(ms[id])
  }

  // ---------------------------------------------------------------- pairing

  /** `f"R{round}_M{k}"`. */
  function MatchId(round: nat, k: nat): string {
    "R" + NatToString(round) + "_M" + NatToString(k)
  }

  /** `f"Round {round} - Match {k}"`. */
  function MatchLabel(round: nat, k: nat): string {
    "Round " + NatToString(round) + " - Match " + NatToString(k)
  }

  /** The `k`-th match of a generated round: pending, no winner, no bracket. */
  function NewMatch(round: nat, k: nat, team1: string, team2: string): Match {
    Match(MatchId(round, k), MatchLabel(round, k), team1, team2, round, false, None, None)
  }

  /** The round's matches for teams in the given order: the first against the second, the third
      against the fourth, and so on. */
  function Pairing(round: nat, order: seq<string>): (created: seq<Match>)
    ensures |created| == |order| / 2
    ensures forall k :: 0 <= k < |created| ==> created[k] == NewMatch(round, k + 1, order[2 * k], order[2 * k + 1])
  {
    seq(|order| / 2, k requires 0 <= k < |order| / 2 => NewMatch(round, k + 1, order[2 * k], order[2 * k + 1]))
  }

  /** `created` are the first matches of the pairing of `order`. */
  predicate PairedSoFar(round: nat, order: seq<string>, created: seq<Match>) {
    && 2 * |created| <= |order|
    && forall k :: 0 <= k < |created| ==> created[k] == NewMatch(round, k + 1, order[2 * k], order[2 * k + 1])
  }

  /** Pairing the next two teams extends the matches paired so far. */
  lemma PairedSoFarExtend(round: nat, order: seq<string>, created: seq<Match>)
    requires PairedSoFar(round, order, created) && 2 * |created| + 1 < |order|
    ensures var n := |created|;
      PairedSoFar(round, order, created + [NewMatch(round, n + 1, order[2 * n], order[2 * n + 1])])
  {
    var n := |created|;
    var extended := created + [NewMatch(round, n + 1, order[2 * n], order[2 * n + 1])];
    forall k | 0 <= k < |extended|
      ensures extended[k] == NewMatch(round, k + 1, order[2 * k], order[2 * k + 1])
    {
      if k < n {
        assert extended[k] == created[k];
      }
    }
  }

  /** Once no two teams are left unpaired, the matches paired so far are the whole pairing. */
  lemma PairedSoFarComplete(round: nat, order: seq<string>, created: seq<Match>)
    requires PairedSoFar(round, order, created) && |order| <= 2 * |created| + 1
    ensures created == Pairing(round, order)
  {
  }

  /** The team left without a match when the number of teams is odd: the last one. */
  function Bye(order: seq<string>): Option<string> {
    if |order| % 2 == 1 then Some(order[|order| - 1]) else None
  }

  /** How many leading characters are digits. */
  function DigitRun(s: string): (n: nat)
    ensures n <= |s|
  {
    if s == [] || !IsDigit(s[0]) then 0 else 1 + DigitRun(s[1..])
  }

  /** Digits followed by text that does not start with a digit: the run is the digits. */
  lemma {:induction false} DigitRunOf(a: string, x: string)
    requires forall i :: 0 <= i < |a| ==> IsDigit(a[i])
    requires x == [] || !IsDigit(x[0])
    ensures DigitRun(a + x) == |a|
  {
    if a != [] {
      assert (a + x)[1..] == a[1..] + x;
      DigitRunOf(a[1..], x);
    } else {
      assert a + x == x;
    }
  }

  /** A match id names its round and its number: different ones give different ids. */
  lemma MatchIdInjective(r1: nat, k1: nat, r2: nat, k2: nat)
    requires MatchId(r1, k1) == MatchId(r2, k2)
    ensures r1 == r2 && k1 == k2
  {
    var a, b := NatToString(r1), NatToString(k1);
    var c, d := NatToString(r2), NatToString(k2);
    var s := MatchId(r1, k1);
    assert s[1..] == a + ("_M" + b);
    assert s[1..] == c + ("_M" + d);
    DigitRunOf(a, "_M" + b);
    DigitRunOf(c, "_M" + d);
    assert a == s[1..][..|a|] == c;
    assert b == s[|a| + 3..] == d;
    NatToStringInjective(r1, r2);
    NatToStringInjective(k1, k2);
  }

  /** The matches of a generated round have pairwise different ids. */
  lemma PairingIdsDistinct(round: nat, order: seq<string>)
    ensures var created := Pairing(round, order);
      forall j, k :: 0 <= j < k < |created| ==> created[j].id != created[k].id
  {
    var created := Pairing(round, order);
    forall j, k | 0 <= j < k < |created|
      ensures created[j].id != created[k].id
    {
      if created[j].id == created[k].id {
        MatchIdInjective(round, j + 1, round, k + 1);
      }
    }
  }

  /** The teams are listed without repetition. */
  predicate Distinct(order: seq<string>) {
    forall i, j :: 0 <= i < j < |order| ==> order[i] != order[j]
  }

  /** A team plays in match `m`. */
  predicate Plays(m: Match, team: string) {
    m.team1 == team || m.team2 == team
  }

  /** With distinct teams, no match is a team against itself and no team plays twice in a
      round; every team plays exactly when it is not the bye. */
  lemma PairingPlaysEachTeamOnce(round: nat, order: seq<string>)
    requires Distinct(order)
    ensures var created := Pairing(round, order);
      && (forall k :: 0 <= k < |created| ==> created[k].team1 != created[k].team2)
      && (forall j, k, t :: 0 <= j < k < |created| && Plays(created[j], t) ==> !Plays(created[k], t))
      && (forall t :: t in order ==> ((exists k :: 0 <= k < |created| && Plays(created[k], t)) <==> Bye(order) != Some(t)))
      && (forall k, t :: 0 <= k < |created| && Plays(created[k], t) ==> t in order)
  {
    var created := Pairing(round, order);
    forall t | t in order
      ensures (exists k :: 0 <= k < |created| && Plays(created[k], t)) <==> Bye(order) != Some(t)
    {
      var i :| 0 <= i < |order| && order[i] == t;
      if i < 2 * (|order| / 2) {
        assert Plays(created[i / 2], t);
      } else {
        assert Bye(order) == Some(t);
        forall k | 0 <= k < |created|
          ensures !Plays(created[k], t)
        {
          assert order[2 * k] != order[i] && order[2 * k + 1] != order[i];
        }
      }
    }
    forall j, k, t | 0 <= j < k < |created| && Plays(created[j], t)
      ensures !Plays(created[k], t)
    {
      assert 2 * j + 1 < 2 * k;
    }
  }

  // ---------------------------------------------------------------- the matches collection

  /** The collection after `save_bsn_match` of each match in turn: an upsert by id that sets
      every field the match has. */
  function SaveAll(ms: map<string, Match>, created: seq<Match>): (r: map<string, Match>)
    ensures forall id :: id in ms ==> id in r
    ensures forall k :: 0 <= k < |created| ==> created[k].id in r
    ensures created != [] ==> r[created[|created| - 1].id] == created[|created| - 1]
    decreases |created|
  {
    if created == [] then ms
    else
      var last := created[|created| - 1];
      var before := SaveAll(ms, created[..|created| - 1]);
      assert forall m :: m in created[..|created| - 1] ==> m in created;
      assert forall k :: 0 <= k < |created| - 1 ==> created[k] == created[..|created| - 1][k];
      before[last.id := last]
  }

  /** Every match in the collection after saving is either one that was there untouched or
      one of the saved ones, stored under its own id. */
  lemma {:induction false} SaveAllValues(ms: map<string, Match>, created: seq<Match>)
    ensures var r := SaveAll(ms, created);
      forall id :: id in r ==> (id in ms && r[id] == ms[id]) || (r[id] in created && r[id].id == id)
    decreases |created|
  {
    if created != [] {
      var init := created[..|created| - 1];
      SaveAllValues(ms, init);
      assert forall m :: m in init ==> m in created;
    }
  }

  /** Saving matches with distinct ids stores every one of them, and leaves every other stored
      match as it was. */
  lemma {:induction false} SaveAllStoresEach(ms: map<string, Match>, created: seq<Match>)
    requires forall j, k :: 0 <= j < k < |created| ==> created[j].id != created[k].id
    ensures forall k :: 0 <= k < |created| ==> SaveAll(ms, created)[created[k].id] == created[k]
    ensures forall id :: id in ms && (forall k :: 0 <= k < |created| ==> created[k].id != id) ==> SaveAll(ms, created)[id] == ms[id]
    decreases |created|
  {
    if created != [] {
      var init := created[..|created| - 1];
      var last := created[|created| - 1];
      SaveAllStoresEach(ms, init);
      assert SaveAll(ms, created) == SaveAll(ms, init)[last.id := last];
      forall k | 0 <= k < |init|
        ensures SaveAll(ms, created)[created[k].id] == created[k]
      {
        assert created[k] == init[k] && created[k].id != last.id;
      }
    }
  }

  /** Once a round is generated, asking again is refused until that round is played: the new
      round is the highest, and its matches are all pending. */
  lemma GenerationBlocksItself(ms: map<string, Match>, order: seq<string>)
    requires NextRound(ms).Ok? && |order| >= 2
    ensures NextRound(SaveAll(ms, Pairing(NextRound(ms).value, order))) == Err(RoundIncomplete(NextRound(ms).value))
  {
    var next := NextRound(ms).value;
    var created := Pairing(next, order);
    var after := SaveAll(ms, created);
    NextRoundGate(ms);
    var last := created[|created| - 1];
    assert last.id in after && after[last.id] == last;
    assert IsMaxRound(after, next) by {
      SaveAllValues(ms, created);
      forall id | id in after
        ensures after[id].round <= next
      {
      }
    }
    assert !RoundComplete(after, next) by {
      assert !after[last.id].completed;
    }
    assert MaxRound(after) == next;
  }

  // ---------------------------------------------------------------- page playoff

  const PagePlayoff: string := "page_playoff"
  const Qualifier1: string := "PP_Q1"
  const Eliminator1: string := "PP_E1"
  const SemiFinal: string := "PP_SF"

  /** Why the next playoff stage is not generated. */
  datatype PlayoffError = NoPagePlayoff

  /**
   * "Generate Next Playoff Stage", the semi-final step: refused when no match belongs to the
   * page-playoff bracket; a semi-final is due, with the loser of qualifier 1 in it, once
   * qualifier 1 and eliminator 1 are both completed and no semi-final exists yet.
   */
  function SemiFinalDue(ms: map<string, Match>): (r: Result<Option<string>, PlayoffError>)
    ensures r.Err? <==> forall id :: id in ms ==> ms[id].bracket != Some(PagePlayoff)
    ensures r.Ok? && r.value.Some? <==>
      && (exists id :: id in ms && ms[id].bracket == Some(PagePlayoff))
      && Qualifier1 in ms && ms[Qualifier1].completed
      && Eliminator1 in ms && ms[Eliminator1].completed
      && SemiFinal !in ms
    ensures r.Ok? && r.value.Some? ==> r.value.value == LoserOf(ms[Qualifier1])
  {
    if !exists id :: id in ms && ms[id].bracket == Some(PagePlayoff) then Err(NoPagePlayoff)
    else if Qualifier1 in ms && ms[Qualifier1].completed && Eliminator1 in ms && ms[Eliminator1].completed
            && SemiFinal !in ms then
      Ok(Some(LoserOf(ms[Qualifier1])))
    else Ok(None)
  }

  /** Once the semi-final is stored, the step never creates a second one. */
  lemma {:induction false} SemiFinalOnce(ms: map<string, Match>, sf: Match)
    requires SemiFinalDue(ms).Ok? && SemiFinalDue(ms).value.Some?
    ensures SemiFinalDue(ms[SemiFinal := sf]) == Ok(None)
  {
    var id :| id in ms && ms[id].bracket == Some(PagePlayoff);
    assert id != SemiFinal;
    assert ms[SemiFinal := sf][id].bracket == Some(PagePlayoff);
  }

  // ---------------------------------------------------------------- the bracket

  /** One match as two lines of a `diff` block: "+ " marks the winner, "- " the loser, a draw
      marks both sides "(Draw)", a pending match has no marks. */
  function FormatMatchLine(m: Match): string {
    if m.completed then
      if m.winner == Some(m.team1) then "+ " + m.team1 + "\n- " + m.team2
      else if m.winner == Some(m.team2) then "- " + m.team1 + "\n+ " + m.team2
      else "  " + m.team1 + " (Draw)\n  " + m.team2 + " (Draw)"
    else "  " + m.team1 + "\n  " + m.team2
  }

  /** The two-character mark in front of a side. */
  function Mark(won: bool, lost: bool): string {
    if won then "+ " else if lost then "- " else "  "
  }

  /**
   * Reading the match line back: it splits into exactly two lines, one per side, each holding
   * the side's name after its mark; "+ " marks the side named as winner (team1 first when both
   * sides have that name), "- " marks the other side of a decided match, and " (Draw)" follows
   * both names exactly when a completed match has neither side as winner.
   */
  lemma FormatMatchLineReadsBack(m: Match)
    requires '\n' !in m.team1 && '\n' !in m.team2
    ensures var lines := Split(FormatMatchLine(m), '\n');
      var won1 := m.completed && m.winner == Some(m.team1);
      var won2 := m.completed && m.winner == Some(m.team2) && !won1;
      var draw := m.completed && !won1 && !won2;
      var suffix := if draw then " (Draw)" else "";
      && |lines| == 2
      && lines[0] == Mark(won1, won2) + m.team1 + suffix
      && lines[1] == Mark(won2, won1) + m.team2 + suffix
  {
    var won1 := m.completed && m.winner == Some(m.team1);
    var won2 := m.completed && m.winner == Some(m.team2) && !won1;
    var draw := m.completed && !won1 && !won2;
    var suffix := if draw then " (Draw)" else "";
    var l1 := Mark(won1, won2) + m.team1 + suffix;
    var l2 := Mark(won2, won1) + m.team2 + suffix;
    assert FormatMatchLine(m) == Join([l1, l2], '\n');
    SplitJoin([l1, l2], '\n');
  }
}
