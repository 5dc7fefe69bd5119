/**
 * The clan dashboard's rules: the interview-question list an admin types in, the bulk
 * visibility update, the `min_th` field edit, the two-choice gate before a clan is set up,
 * and the record a new clan is saved as.
 */
module Dashboard {
  import opened Wrappers
  import opened Text
  import opened GameApi
  import opened Clans
  import Tickets

  // ---------------------------------------------------------------- interview questions

  /** The stripped, non-blank lines of `lines`, in order. */
  function NonBlank(lines: seq<string>): (qs: seq<string>)
    ensures |qs| <= |lines|
    decreases |lines|
  {
    if lines == [] then []
    else
      var q := Strip(lines[0]);
      (if q == "" then [] else [q]) + NonBlank(lines[1..])
  }

  /** The question list typed into the questions form: one question per line, each line
      stripped, blank lines dropped. */
  function ParseQuestions(text: string): seq<string> {
    NonBlank(Split(text, '\n'))
  }

  /** A question the form can produce: not blank, neither starting nor ending with
      whitespace, on one line. */
  predicate IsCleanQuestion(q: string) {
    q != "" && q[0] !in Whitespace && q[|q| - 1] !in Whitespace && '\n' !in q
  }

  /** A clean question has nothing to strip. */
  lemma StripOfClean(q: string)
    requires IsCleanQuestion(q)
    ensures Strip(q) == q
  {
    StripCharsNothingToStrip(q, Whitespace);
  }

  predicate AllClean(qs: seq<string>) {
    forall k :: 0 <= k < |qs| ==> IsCleanQuestion(qs[k])
  }

  /** A stripped string is a slice of the original, so it holds no character the original lacks. */
  lemma StripKeepsOut(s: string, c: char)
    requires c !in s
    ensures c !in Strip(s)
  {
    StripCharsSlice(s, Whitespace);
  }

  /** A non-blank line, stripped, is a clean question. */
  lemma StrippedLineClean(line: string)
    requires '\n' !in line && Strip(line) != ""
    ensures IsCleanQuestion(Strip(line))
  {
    StripCharsEnds(line, Whitespace);
    StripKeepsOut(line, '\n');
  }

  lemma AllCleanCons(qs: seq<string>)
    requires qs != []
    ensures AllClean(qs) <==> IsCleanQuestion(qs[0]) && AllClean(qs[1..])
  {
    var rest := qs[1..];
    if IsCleanQuestion(qs[0]) && AllClean(rest) {
      forall k | 0 < k < |qs|
        ensures IsCleanQuestion(qs[k])
      {
        assert qs[k] == rest[k - 1];
      }
    }
    if AllClean(qs) {
      forall k | 0 <= k < |rest|
        ensures IsCleanQuestion(rest[k])
      {
        assert rest[k] == qs[k + 1];
      }
    }
  }

  lemma {:induction false} NonBlankClean(lines: seq<string>)
    requires forall k :: 0 <= k < |lines| ==> '\n' !in lines[k]
    ensures AllClean(NonBlank(lines))
    decreases |lines|
  {
    if lines != [] {
      var q := Strip(lines[0]);
      var rest := NonBlank(lines[1..]);
      assert forall k :: 0 <= k < |lines[1..]| ==> lines[1..][k] == lines[k + 1];
      NonBlankClean(lines[1..]);
      if q == "" {
        assert NonBlank(lines) == rest;
      } else {
        StrippedLineClean(lines[0]);
        assert NonBlank(lines) == [q] + rest;
        assert ([q] + rest)[1..] == rest;
        AllCleanCons([q] + rest);
      }
    }
  }

  /** Every saved question is non-blank, already stripped and a single line. */
  lemma ParsedQuestionsClean(text: string)
    ensures AllClean(ParseQuestions(text))
  {
    NonBlankClean(Split(text, '\n'));
  }

  /** A clean first line is kept as it is. */
  lemma NonBlankKeepsClean(lines: seq<string>)
    requires lines != [] && IsCleanQuestion(lines[0])
    ensures NonBlank(lines) == [lines[0]] + NonBlank(lines[1..])
  {
    StripOfClean(lines[0]);
  }

  lemma {:induction false} NonBlankOfClean(qs: seq<string>)
    requires AllClean(qs)
    ensures NonBlank(qs) == qs
    decreases |qs|
  {
    if qs != [] {
      AllCleanCons(qs);
      NonBlankOfClean(qs[1..]);
      NonBlankKeepsClean(qs);
      assert qs == [qs[0]] + qs[1..];
    }
  }

  /** Typing a list of clean questions one per line saves exactly that list, in order. */
  lemma ParseQuestionsOfLines(qs: seq<string>)
    requires AllClean(qs)
    ensures ParseQuestions(Join(qs, '\n')) == qs
  {
    if qs == [] {
      assert Split("", '\n') == [""];
    } else {
      SplitJoin(qs, '\n');
      NonBlankOfClean(qs);
    }
  }

  /** Re-submitting the saved list, one per line, saves the same list again. */
  lemma ParseQuestionsIdempotent(text: string)
    ensures ParseQuestions(Join(ParseQuestions(text), '\n')) == ParseQuestions(text)
  {
    ParsedQuestionsClean(text);
    ParseQuestionsOfLines(ParseQuestions(text));
  }

  /** Every line is blank: nothing but whitespace. */
  predicate AllBlank(lines: seq<string>) {
    forall k :: 0 <= k < |lines| ==> Strip(lines[k]) == ""
  }

  lemma AllBlankCons(lines: seq<string>)
    requires lines != []
    ensures AllBlank(lines) <==> Strip(lines[0]) == "" && AllBlank(lines[1..])
  {
    var rest := lines[1..];
    if Strip(lines[0]) == "" && AllBlank(rest) {
      forall k | 0 < k < |lines|
        ensures Strip(lines[k]) == ""
      {
        assert lines[k] == rest[k - 1];
      }
    }
    if AllBlank(lines) {
      forall k | 0 <= k < |rest|
        ensures Strip(rest[k]) == ""
      {
        assert rest[k] == lines[k + 1];
      }
    }
  }

  lemma {:induction false} NonBlankEmptyIff(lines: seq<string>)
    ensures NonBlank(lines) == [] <==> AllBlank(lines)
    decreases |lines|
  {
    if lines != [] {
      var rest := lines[1..];
      NonBlankEmptyIff(rest);
      AllBlankCons(lines);
      var q := Strip(lines[0]);
      assert NonBlank(lines) == (if q == "" then [] else [q]) + NonBlank(rest);
    }
  }

  /** A form whose every line is blank saves an empty list, and the interview then falls back
      to the default questions; otherwise it asks exactly the saved ones. */
  lemma InterviewAsksSavedQuestions(text: string)
    ensures ParseQuestions(text) == [] <==> AllBlank(Split(text, '\n'))
    ensures ParseQuestions(text) == [] ==>
      Tickets.QuestionsOrDefault(ParseQuestions(text)) == Tickets.DefaultQuestions
    ensures ParseQuestions(text) != [] ==>
      Tickets.QuestionsOrDefault(ParseQuestions(text)) == ParseQuestions(text)
  {
    var lines := Split(text, '\n');
    NonBlankEmptyIff(lines);
    assert ParseQuestions(text) == NonBlank(lines);
  }

  const JoinClanTicket: string := "join_clan"

  /** The `questions` collection: one list of questions per ticket type. */
  class QuestionStore {
    var questions: map<string, seq<string>>

    constructor ()
      ensures questions == map[]
    {
      questions := map[];
    }

    /** `get_questions`: the stored list, or none. */
    function Stored(ticketType: string): (qs: seq<string>)
      reads this
      ensures ticketType !in questions ==> qs == []
      ensures ticketType in questions ==> qs == questions[ticketType]
    {
      if ticketType in questions then questions[ticketType] else []
    }

    /** The questions form's submit: the parsed list replaces the join-clan questions. */
    method ConfigureQuestions(text: string) returns (saved: seq<string>)
      modifies this
      ensures saved == ParseQuestions(text) && AllClean(saved)
      ensures questions == old(questions)[JoinClanTicket := saved]
    {
      saved := ParseQuestions(text);
      ParsedQuestionsClean(text);
      questions := questions[JoinClanTicket := saved];
    }
  }

  // ---------------------------------------------------------------- visibility

  /** One entry of the visibility menu: the clan's name, its tag as the value, and whether it
      starts out selected. */
  datatype VisibilityOption = VisibilityOption(title: string, value: string, preselected: bool)

  /** The menu over the listed clans: one option per clan, pre-selected exactly when the clan
      is visible (a clan without a flag counts as visible). */
  function VisibilityOptions(listed: seq<Clan>): (opts: seq<VisibilityOption>)
    ensures |opts| == |listed|
    ensures forall i :: 0 <= i < |listed| ==>
      && opts[i].title == listed[i].name
      && opts[i].value == listed[i].tag
      && (opts[i].preselected <==> IsVisible(listed[i]))
  {
    seq(|listed|, i requires 0 <= i < |listed| => VisibilityOption(listed[i].name, listed[i].tag, IsVisible(listed[i])))
  }

  /** The values of the pre-selected options: what the menu submits when left untouched. */
  function DefaultSelection(opts: seq<VisibilityOption>): (selected: seq<string>)
    ensures forall t :: t in selected <==> exists i :: 0 <= i < |opts| && opts[i].value == t && opts[i].preselected
    decreases |opts|
  {
    if opts == [] then []
    else
      var rest := DefaultSelection(opts[1..]);
      assert forall i :: 1 <= i < |opts| ==> opts[i] == opts[1..][i - 1];
      (if opts[0].preselected then [opts[0].value] else []) + rest
  }

  /** The collection after the visibility submit: for each listed clan in turn, the document
      under its tag gets `visible` set to whether that tag was selected. */
  function VisibilityAfter(clans: map<string, Clan>, listed: seq<Clan>, selected: seq<string>): map<string, Clan>
    decreases |listed|
  {
    if listed == [] then clans
    else
      var before := VisibilityAfter(clans, listed[..|listed| - 1], selected);
      var t := listed[|listed| - 1].tag;
      if t in before then before[t := WithField(before[t], SetVisible(t in selected))] else before
  }

  /** Some listed clan has tag `t`. */
  predicate IsListed(listed: seq<Clan>, t: string) {
    exists i :: 0 <= i < |listed| && listed[i].tag == t
  }

  /** Listed clans whose document exists end up visible exactly when selected; every other
      document, and the set of documents, is left alone. */
  lemma {:induction false} VisibilityAfterRule(clans: map<string, Clan>, listed: seq<Clan>, selected: seq<string>)
    ensures var after := VisibilityAfter(clans, listed, selected);
      && after.Keys == clans.Keys
      && forall t :: t in clans ==>
           after[t] == if IsListed(listed, t) then clans[t].(visible := Some(t in selected)) else clans[t]
    decreases |listed|
  {
    if listed != [] {
      var init := listed[..|listed| - 1];
      VisibilityAfterRule(clans, init, selected);
      var after := VisibilityAfter(clans, listed, selected);
      forall t | t in clans
        ensures after[t] == if IsListed(listed, t) then clans[t].(visible := Some(t in selected)) else clans[t]
      {
        if t != listed[|listed| - 1].tag {
          if IsListed(listed, t) {
            var i :| 0 <= i < |listed| && listed[i].tag == t;
            assert init[i].tag == t;
          }
        } else {
          assert listed[|listed| - 1].tag == t;
        }
      }
    }
  }

  /** One stored clan keeps its visibility when the menu is submitted untouched. */
  lemma UntouchedMenuKeepsOne(clans: map<string, Clan>, listed: seq<Clan>, t: string)
    requires forall i :: 0 <= i < |listed| ==> listed[i].tag in clans && clans[listed[i].tag] == listed[i]
    requires t in clans
    ensures var selected := DefaultSelection(VisibilityOptions(listed));
      IsListed(listed, t) ==> (t in selected <==> IsVisible(clans[t]))
  {
    var opts := VisibilityOptions(listed);
    var selected := DefaultSelection(opts);
    if IsListed(listed, t) {
      var i :| 0 <= i < |listed| && listed[i].tag == t;
      if t in selected {
        var j :| 0 <= j < |opts| && opts[j].value == t && opts[j].preselected;
        assert listed[j] == clans[t];
      } else {
        assert !opts[i].preselected;
      }
    }
  }

  /** Submitting the menu untouched leaves whether every stored clan is visible as it was,
      when the listed clans are the stored documents. */
  lemma UntouchedMenuKeepsVisibility(clans: map<string, Clan>, listed: seq<Clan>)
    requires forall i :: 0 <= i < |listed| ==> listed[i].tag in clans && clans[listed[i].tag] == listed[i]
    ensures var after := VisibilityAfter(clans, listed, DefaultSelection(VisibilityOptions(listed)));
      after.Keys == clans.Keys && forall t :: t in clans ==> (IsVisible(after[t]) <==> IsVisible(clans[t]))
  {
    var selected := DefaultSelection(VisibilityOptions(listed));
    VisibilityAfterRule(clans, listed, selected);
    var after := VisibilityAfter(clans, listed, selected);
    forall t | t in clans
      ensures IsVisible(after[t]) <==> IsVisible(clans[t])
    {
      UntouchedMenuKeepsOne(clans, listed, t);
    }
  }

  /** The visibility menu's submit: writes every listed clan's flag and reports how many clans
      were selected. */
  method ApplyVisibility(store: ClanStore, listed: seq<Clan>, selected: seq<string>) returns (reported: nat)
    requires store.Valid()
    modifies store
    ensures store.Valid()
    ensures store.clans == VisibilityAfter(old(store.clans), listed, selected)
    ensures reported == |selected|
  {
    var i := 0;
    while i < |listed|
      invariant 0 <= i <= |listed|
      invariant store.Valid()
      invariant store.clans == VisibilityAfter(old(store.clans), listed[..i], selected)
    {
      var t := listed[i].tag;
      store.UpdateField(t, SetVisible(t in selected));
      assert listed[..i + 1][..i] == listed[..i];
      i := i + 1;
    }
    assert listed[..|listed|] == listed;
    reported := |selected|;
  }

  // ---------------------------------------------------------------- the min_th edit

  /** The edit form's conversion of a new `min_th`: all-digit input is taken as its number,
      anything else is refused. */
  function MinThInput(input: string): (minTh: Option<nat>)
    ensures minTh.Some? <==> IsDigits(input)
  {
    if IsDigits(input) then Some(DigitsValue(input)) else None
  }

  /** The form opens with the stored value written out; submitting it unchanged stores the
      same number again, and a number can be entered as its decimal digits. */
  lemma MinThInputOfCurrent(n: nat)
    ensures MinThInput(NatToString(n)) == Some(n)
  {
    DigitsValueOfNatToString(n);
  }

  /** Input with a sign, a space or any other non-digit is refused; so is an empty input. */
  lemma MinThInputRefuses(input: string)
    requires input == "" || exists i :: 0 <= i < |input| && !IsDigit(input[i])
    ensures MinThInput(input) == None
  {
  }

  /** The field form's submit for `min_th`: the clan's document gets the number when the input
      converts, and nothing is written otherwise. */
  method EditMinTh(store: ClanStore, tag: string, input: string) returns (applied: bool)
    requires store.Valid()
    modifies store
    ensures store.Valid()
    ensures applied <==> MinThInput(input).Some?
    ensures applied && tag in old(store.clans) ==>
      store.clans == old(store.clans)[tag := old(store.clans)[tag].(minTh := MinThInput(input).value)]
    ensures !applied || tag !in old(store.clans) ==> store.clans == old(store.clans)
  {
    var minTh := MinThInput(input);
    if minTh.None? {
      return false;
    }
    store.UpdateField(tag, SetMinTh(minTh.value));
    applied := true;
  }

  // ---------------------------------------------------------------- clan setup

  const ClanTypes: seq<string> := ["Regular", "Cruise"]
  const MinThOptions: seq<string> := ["11", "12", "13", "14", "15", "16", "17"]

  /** Every minimum Town Hall on offer is a number from 11 to 17. */
  lemma MinThOptionsAreLevels(o: string)
    requires o in MinThOptions
    ensures IsDigits(o) && 11 <= DigitsValue(o) <= 17
  {
    var k :| 0 <= k < |MinThOptions| && MinThOptions[k] == o;
    assert IsDigits(o);
    assert DigitsValue(o) == 10 * DigitsValue(o[..1]) + (o[1] as int - '0' as int);
  }

  /** The first step of adding a clan: a clan type and a minimum Town Hall picked from menus. */
  class ClanSetup {
    var clanType: Option<string>
    var minTh: Option<string>

    /** A choice, once made, is one the menus offer. */
    ghost predicate Valid()
      reads this
    {
      && (clanType.Some? ==> clanType.value in ClanTypes)
      && (minTh.Some? ==> minTh.value in MinThOptions)
    }

    constructor ()
      ensures Valid() && clanType.None? && minTh.None?
    {
      clanType := None;
      minTh := None;
    }

    method SelectType(choice: string)
      requires Valid() && choice in ClanTypes
      modifies this
      ensures Valid() && clanType == Some(choice) && minTh == old(minTh)
    {
      clanType := Some(choice);
    }

    method SelectMinTh(choice: string)
      requires Valid() && choice in MinThOptions
      modifies this
      ensures Valid() && minTh == Some(choice) && clanType == old(clanType)
    {
      minTh := Some(choice);
    }

    /** The Next button: refuses until both choices are made, and otherwise hands the clan type
      and the chosen minimum Town Hall, as a number from 11 to 17, to the details step. */
    method Next() returns (start: Option<(string, nat)>)
      requires Valid()
      ensures start.Some? <==> clanType.Some? && minTh.Some?
      ensures start.Some? ==>
        && start.value.0 == clanType.value && start.value.0 in ClanTypes
        && IsDigits(minTh.value) && start.value.1 == DigitsValue(minTh.value)
        && 11 <= start.value.1 <= 17
    {
      if clanType.None? || minTh.None? {
        return None;
      }
      MinThOptionsAreLevels(minTh.value);
      start := Some((clanType.value, DigitsValue(minTh.value)));
    }
  }

  /** The war league shown for a new clan: "Unranked" when the game API has no details. */
  function NewClanWarLeague(details: Option<ClanDetails>): (league: string)
    ensures details.None? || details.value.warLeague.None? ==> league == Unranked
    ensures details.Some? && details.value.warLeague.Some? ==> league == details.value.warLeague.value
  {
    if details.Some? then WarLeagueName(details.value) else Unranked
  }

  /** The record a new clan is saved as: the entered tag upper-cased, the chosen type and
      minimum Town Hall, the entered links and ids, and the war league and capital hall from
      the game API's details ("Unranked" and "N/A" without them); the clan starts visible. */
  method NewClanRecord(name: string, tagInput: string, clanType: string, minTh: nat, link: string,
                       logoUrl: string, leaderId: int, roleId: int, details: Option<ClanDetails>)
    returns (c: Clan)
    ensures c.name == name && c.tag == Upper(tagInput) && c.clanType == clanType && c.minTh == minTh
    ensures c.link == link && c.logoUrl == logoUrl
    ensures c.leaderId == Some(leaderId) && c.leadershipRoleId == Some(roleId)
    ensures c.warLeague == Some(NewClanWarLeague(details))
    ensures c.capitalHall.Some?
    ensures details.None? ==> c.capitalHall.value == NotAvailable
    ensures details.Some? ==> IsCapitalHallOf(details.value, c.capitalHall.value)
    ensures c.visible.None? && IsVisible(c)
  {
    var hall := NotAvailable;
    if details.Some? {
      hall := CapitalHall(details.value);
    }
    c := Clan(name, Upper(tagInput), clanType, minTh, link, logoUrl, Some(leaderId), Some(roleId),
              Some(NewClanWarLeague(details)), Some(hall), None);
  }

  /** The add-clan flow's save: the new record is upserted under its tag. A clan never stored
      before is visible; a clan added again keeps the visibility stored for it, since the
      record carries no `visible` field, and its other fields take the entered values. */
  method AddClan(store: ClanStore, name: string, tagInput: string, clanType: string, minTh: nat,
                 link: string, logoUrl: string, leaderId: int, roleId: int,
                 details: Option<ClanDetails>) returns (c: Clan)
    requires store.Valid()
    modifies store
    ensures store.Valid()
    ensures c.tag == Upper(tagInput) && c.name == name && c.minTh == minTh
    ensures store.clans.Keys == old(store.clans).Keys + {c.tag}
    ensures forall t :: t in old(store.clans) && t != c.tag ==> store.clans[t] == old(store.clans)[t]
    ensures c.tag !in old(store.clans) ==> store.clans[c.tag] == c && IsVisible(store.clans[c.tag])
    ensures c.tag in old(store.clans) ==>
      store.clans[c.tag] == old(store.clans)[c.tag].(name := c.name, clanType := c.clanType,
        minTh := c.minTh, link := c.link, logoUrl := c.logoUrl, leaderId := c.leaderId,
        leadershipRoleId := c.leadershipRoleId, warLeague := c.warLeague,
        capitalHall := c.capitalHall)
    ensures c.tag in old(store.clans) ==> IsVisible(store.clans[c.tag]) == IsVisible(old(store.clans)[c.tag])
  {
    c := NewClanRecord(name, tagInput, clanType, minTh, link, logoUrl, leaderId, roleId, details);
    store.Save(c);
  }
}
