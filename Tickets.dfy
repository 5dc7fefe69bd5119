/**
 * The recruitment ticket flow: an applicant enters the tags of their game accounts, answers
 * the interview questions, and picks a clan for each account from the clans that fit it;
 * leadership then accepts or passes each account from a panel of buttons.
 */
module Tickets {
  import opened Wrappers
  import opened Text
  import opened GameApi
  import opened Clans

  // ---------------------------------------------------------------- player tags

  /** A typed tag as the lookup uses it: upper-cased, every `#` removed. */
  function NormalizeEnteredTag(s: string): string {
    RemoveChar(Upper(s), '#')
  }

  /** The tag stored for an account: `#` and the API's tag without surrounding `#`s. */
  function StoredTag(apiTag: string): string {
    "#" + StripChars(apiTag, {'#'})
  }

  /** Upper-casing a string with no lower-case letters changes nothing. */
  lemma UpperOfUpper(s: string)
    requires forall i :: 0 <= i < |s| ==> UpperChar(s[i]) == s[i]
    ensures Upper(s) == s
  {
  }

  /** A normalised tag has no `#` and no lower-case letter, and normalising it again changes
      nothing. */
  lemma NormalizeEnteredTagIdempotent(s: string)
    ensures var t := NormalizeEnteredTag(s);
      && '#' !in t
      && (forall i :: 0 <= i < |t| ==> !('a' <= t[i] <= 'z'))
      && NormalizeEnteredTag(t) == t
  {
    var u := Upper(s);
    var t := NormalizeEnteredTag(s);
    forall i | 0 <= i < |t|
      ensures UpperChar(t[i]) == t[i]
    {
      assert t[i] in u;
    }
    UpperOfUpper(t);
    NoCharLeftToRemove(t, '#');
  }

  /** Removing a character that does not occur changes nothing. */
  lemma {:induction false} NoCharLeftToRemove(s: string, c: char)
    requires c !in s
    ensures RemoveChar(s, c) == s
  {
    if s != [] {
      assert c !in s[1..];
      NoCharLeftToRemove(s[1..], c);
      assert s == [s[0]] + s[1..];
    }
  }

  /** A stored tag starts with exactly one `#`, and does not end with one unless it is just "#". */
  lemma StoredTagShape(apiTag: string)
    ensures var t := StoredTag(apiTag);
      && t[0] == '#' && (|t| == 1 || (t[1] != '#' && t[|t| - 1] != '#'))
  {
    var x := StripChars(apiTag, {'#'});
    StripCharsEnds(apiTag, {'#'});
    var t := "#" + x;
    if x != [] {
      assert t[1] == x[0] && t[|t| - 1] == x[|x| - 1];
    }
  }

  /** Storing a stored tag again changes nothing. */
  lemma StoredTagIdempotent(apiTag: string)
    ensures StoredTag(StoredTag(apiTag)) == StoredTag(apiTag)
  {
    var x := StripChars(apiTag, {'#'});
    StripCharsEnds(apiTag, {'#'});
    StripCharsNothingToStrip(x, {'#'});
    StripCharsAfterStripped(x, '#', {'#'});
  }

  // ---------------------------------------------------------------- clans an account may apply to

  /** The filter of the clan-type menu: same type ignoring case, a minimum Town Hall the
      account meets, and not hidden. */
  predicate Eligible(c: Clan, clanType: string, th: int) {
    Lower(c.clanType) == Lower(clanType) && c.minTh <= th && IsVisible(c)
  }

  /** The clans offered to an account, in stored order. */
  function EligibleClans(clans: seq<Clan>, clanType: string, th: int): (offered: seq<Clan>)
    ensures forall c :: c in offered <==> c in clans && Eligible(c, clanType, th)
    ensures |offered| <= |clans|
  {
    if clans == [] then []
    else (if Eligible(clans[0], clanType, th) then [clans[0]] else []) + EligibleClans(clans[1..], clanType, th)
  }

  /** The filter keeps the stored order: the clans offered from two lists in a row are those
      offered from the first followed by those offered from the second. */
  lemma {:induction false} EligibleClansKeepsOrder(a: seq<Clan>, b: seq<Clan>, clanType: string, th: int)
    ensures EligibleClans(a + b, clanType, th) == EligibleClans(a, clanType, th) + EligibleClans(b, clanType, th)
  {
    if a != [] {
      assert (a + b)[1..] == a[1..] + b;
      EligibleClansKeepsOrder(a[1..], b, clanType, th);
    } else {
      assert a + b == b;
    }
  }

  /** A clan hidden from the dashboard is never offered, whatever the type and Town Hall. */
  lemma HiddenClansNeverOffered(clans: seq<Clan>, clanType: string, th: int)
    ensures forall c :: c in EligibleClans(clans, clanType, th) ==> c.visible != Some(false)
  {
  }

  // ---------------------------------------------------------------- the self-healing refresh

  /** A clan whose stored war league or capital hall is missing or "N/A". */
  predicate NeedsStats(c: Clan) {
    c.warLeague.GetOr(NotAvailable) == NotAvailable || c.capitalHall.GetOr(NotAvailable) == NotAvailable
  }

  /** `shown` is `c` with the war league and capital hall taken from `details`. */
  ghost predicate Refreshed(c: Clan, details: ClanDetails, shown: Clan) {
    && shown == c.(warLeague := Some(WarLeagueName(details)), capitalHall := shown.capitalHall)
    && shown.capitalHall.Some? && IsCapitalHallOf(details, shown.capitalHall.value)
  }

  /** A clan is refreshed when it lacks a stat and the API returns it. */
  predicate Refreshes(c: Clan, api: ClanApi) {
    NeedsStats(c) && c.tag in api
  }

  /** The stored clans after one offered clan `c` was handled: when refreshed and stored, its
      stored document takes the war league and capital hall shown. */
  function StoreStep(clans: map<string, Clan>, c: Clan, shownC: Clan, refreshed: bool): map<string, Clan> {
    if refreshed && c.tag in clans then
      clans[c.tag := clans[c.tag].(warLeague := shownC.warLeague, capitalHall := shownC.capitalHall)]
    else clans
  }

  /** The stored clans after every offered clan was handled in turn. */
  function StoreAfter(clans: map<string, Clan>, offered: seq<Clan>, shown: seq<Clan>, api: ClanApi): map<string, Clan>
    requires |offered| == |shown|
    decreases |offered|
  {
    if offered == [] then clans
    else
      var k := |offered| - 1;
      StoreStep(StoreAfter(clans, offered[..k], shown[..k], api), offered[k], shown[k], Refreshes(offered[k], api))
  }

  /** With one offered clan per tag, the refresh writes the shown stats to exactly the stored
      clans that were refreshed, and leaves every other stored clan alone. */
  lemma {:induction false} StoreAfterRule(clans: map<string, Clan>, offered: seq<Clan>, shown: seq<Clan>, api: ClanApi)
    requires |offered| == |shown|
    requires forall i, j :: 0 <= i < j < |offered| ==> offered[i].tag != offered[j].tag
    ensures var after := StoreAfter(clans, offered, shown, api);
      && after.Keys == clans.Keys
      && (forall i :: 0 <= i < |offered| && Refreshes(offered[i], api) && offered[i].tag in clans ==>
            after[offered[i].tag] == clans[offered[i].tag].(warLeague := shown[i].warLeague, capitalHall := shown[i].capitalHall))
      && (forall t :: t in clans && (forall i :: 0 <= i < |offered| && Refreshes(offered[i], api) ==> offered[i].tag != t) ==>
            after[t] == clans[t])
    decreases |offered|
  {
    if offered != [] {
      var k := |offered| - 1;
      StoreAfterRule(clans, offered[..k], shown[..k], api);
      var before := StoreAfter(clans, offered[..k], shown[..k], api);
      var after := StoreAfter(clans, offered, shown, api);
      forall i | 0 <= i < k && Refreshes(offered[i], api) && offered[i].tag in clans
        ensures after[offered[i].tag] == clans[offered[i].tag].(warLeague := shown[i].warLeague, capitalHall := shown[i].capitalHall)
      {
        assert offered[..k][i] == offered[i] && shown[..k][i] == shown[i];
        assert offered[i].tag != offered[k].tag;
      }
      forall t | t in clans && (forall i :: 0 <= i < |offered| && Refreshes(offered[i], api) ==> offered[i].tag != t)
        ensures after[t] == clans[t]
      {
        assert forall i :: 0 <= i < k ==> offered[..k][i] == offered[i];
      }
    }
  }

  /** One offered clan: looked up when it lacks a stat, both stats stored and shown. */
  method RefreshOne(store: ClanStore, c: Clan, api: ClanApi) returns (shownC: Clan)
    requires store.Valid()
    modifies store
    ensures store.Valid()
    ensures if Refreshes(c, api) then Refreshed(c, api[c.tag], shownC) else shownC == c
    ensures store.clans == StoreStep(old(store.clans), c, shownC, Refreshes(c, api))
  {
    shownC := c;
    if Refreshes(c, api) {
      var details := api[c.tag];
      var league := WarLeagueName(details);
      var hall := CapitalHall(details);
      store.UpdateField(c.tag, SetWarLeague(league));
      store.UpdateField(c.tag, SetCapitalHall(hall));
      shownC := c.(warLeague := Some(league), capitalHall := Some(hall));
    }
  }

  /**
   * Before the clan menu is shown, every offered clan missing its war league or capital hall
   * is looked up, and both fields are written to the stored clan and to the copy shown; a
   * clan the API does not return is left as it is.
   */
  method RefreshStats(store: ClanStore, offered: seq<Clan>, api: ClanApi) returns (shown: seq<Clan>)
    requires store.Valid()
    modifies store
    ensures store.Valid()
    ensures |shown| == |offered|
    ensures forall i :: 0 <= i < |offered| ==>
      if Refreshes(offered[i], api) then Refreshed(offered[i], api[offered[i].tag], shown[i])
      else shown[i] == offered[i]
    ensures store.clans == StoreAfter(old(store.clans), offered, shown, api)
  {
    shown := [];
    var k := 0;
    while k < |offered|
      invariant 0 <= k <= |offered| && |shown| == k
      invariant store.Valid()
      invariant forall i :: 0 <= i < k ==>
        if Refreshes(offered[i], api) then Refreshed(offered[i], api[offered[i].tag], shown[i])
        else shown[i] == offered[i]
      invariant store.clans == StoreAfter(old(store.clans), offered[..k], shown, api)
    {
      var c := RefreshOne(store, offered[k], api);
      assert offered[..k + 1][..k] == offered[..k];
      assert (shown + [c])[..k] == shown;
      shown := shown + [c];
      k := k + 1;
    }
    assert offered[..k] == offered;
  }

  // ---------------------------------------------------------------- who may act on a ticket

  /**
   * `check_permission`: nobody may act for a clan that was not found; otherwise the user
   * holds the clan's leadership role or is its leader, a missing id counting as 0.
   */
  function CheckPermission(clan: Option<Clan>, userId: int, userRoles: seq<int>): bool {
    clan.Some? && (clan.value.leadershipRoleId.GetOr(0) in userRoles || userId == clan.value.leaderId.GetOr(0))
  }

  /** A clan with neither a leader nor a leadership role stored authorises no user with a
      positive id and positive role ids; and holding more roles never takes permission away. */
  lemma PermissionRules(clan: Option<Clan>, userId: int, roles: seq<int>, moreRoles: seq<int>)
    ensures clan.Some? && clan.value.leaderId.None? && clan.value.leadershipRoleId.None?
            && userId > 0 && (forall i :: 0 <= i < |roles| ==> roles[i] > 0)
            ==> !CheckPermission(clan, userId, roles)
    ensures CheckPermission(clan, userId, roles) ==> CheckPermission(clan, userId, roles + moreRoles)
    ensures CheckPermission(clan, userId, roles) ==> clan.Some?
  {
    if clan.Some? && clan.value.leaderId.None? && clan.value.leadershipRoleId.None?
       && userId > 0 && (forall i :: 0 <= i < |roles| ==> roles[i] > 0) {
      assert 0 !in roles;
    }
  }

  // ---------------------------------------------------------------- the interview session

  /** The questions asked when none are stored. */
  const DefaultQuestions: seq<string> := ["Why do you want to join?", "Do you have Discord notifications on?"]

  /** The interview's questions: the stored ones, or the defaults when none are stored. */
  function QuestionsOrDefault(stored: seq<string>): (qs: seq<string>)
    ensures qs != []
    ensures stored != [] ==> qs == stored
  {
    if stored == [] then DefaultQuestions else stored
  }

  datatype Answer = Answer(question: string, answer: string)

  /** A game account entered in the ticket, and the clan tag picked for it, if any. */
  datatype Account = Account(tag: string, name: string, th: int, selectedClanTag: Option<string>)

  /** A chat message in the ticket channel. */
  datatype ChatMessage = ChatMessage(authorId: int, content: string)

  /** The contents of the messages `user` posted, in order. */
  function ContentsBy(history: seq<ChatMessage>, user: int): seq<string> {
    if history == [] then []
    else
      var last := history[|history| - 1];
      ContentsBy(history[..|history| - 1], user) + (if last.authorId == user then [last.content] else [])
  }

  /** Collecting keeps the order of the channel and only the user's own messages. */
  lemma {:induction false} ContentsByAppend(a: seq<ChatMessage>, b: seq<ChatMessage>, user: int)
    ensures ContentsBy(a + b, user) == ContentsBy(a, user) + ContentsBy(b, user)
    decreases |b|
  {
    if b != [] {
      var init := b[..|b| - 1];
      assert (a + b)[..|a + b| - 1] == a + init;
      ContentsByAppend(a, init, user);
    } else {
      assert a + b == a;
    }
  }

  /** Every collected content is that of a message by the user. */
  lemma {:induction false} ContentsByOnlyUser(history: seq<ChatMessage>, user: int)
    ensures forall s :: s in ContentsBy(history, user) ==> ChatMessage(user, s) in history
    decreases |history|
  {
    if history != [] {
      var init := history[..|history| - 1];
      ContentsByOnlyUser(init, user);
      assert forall m :: m in init ==> m in history;
    }
  }

  /** What follows question `index`: the question itself, or the clan selection once every
      question is answered. */
  datatype Step = AskQuestion(index: nat, question: string) | ToClanSelection

  /** `ask_question`'s choice. */
  function AskStep(questions: seq<string>, index: nat): (step: Step)
    ensures step.ToClanSelection? <==> index >= |questions|
    ensures step.AskQuestion? ==> step.index == index && step.question == questions[index]
  {
    if index >= |questions| then ToClanSelection else AskQuestion(index, questions[index])
  }

  /** What a click on Done leads to. */
  datatype DoneOutcome = NotYours | NoAnswer | Answered(next: Step)

  /** What entering a player tag leads to. */
  datatype TagOutcome = UnknownTag | NextAccount(index: nat) | AllAccountsEntered

  /** What follows the clan choice for account `index`. */
  datatype SelectionStep = ChooseClanTypeFor(index: nat) | SubmitApplication

  /** `start_clan_selection`'s choice. */
  function SelectionStepFor(accounts: seq<Account>, index: nat): (step: SelectionStep)
    ensures step.SubmitApplication? <==> index >= |accounts|
    ensures step.ChooseClanTypeFor? ==> step.index == index
  {
    if index >= |accounts| then SubmitApplication else ChooseClanTypeFor(index)
  }

  /** The applicant's session: the accounts entered, and the interview in progress. */
  class Session {
    var userId: Option<int>
    var accountCount: nat
    var accounts: seq<Account>
    var questions: seq<string>
    var answers: seq<Answer>
    var current: nat

    /** One answer per question asked so far, in question order, and the question being asked
        is the next unanswered one. */
    ghost predicate Valid()
      reads this
    {
      && current == |answers| <= |questions|
      && forall k :: 0 <= k < |answers| ==> answers[k].question == questions[k]
    }

    constructor (userId: Option<int>, accountCount: nat)
      ensures Valid()
      ensures this.userId == userId && this.accountCount == accountCount
      ensures accounts == [] && questions == [] && answers == [] && current == 0
    {
      this.userId := userId;
      this.accountCount := accountCount;
      accounts, questions, answers, current := [], [], [], 0;
    }

    /** `interaction_check`: only the applicant may use the session's controls, when known. */
    predicate MayUse(clicker: int)
      reads this
    {
      userId.None? || clicker == userId.value
    }

    /** The tag modal's submit for account `index`: a known player is appended to the
        accounts, then the next tag is asked for, or the collection is finished. */
    method EnterTag(index: nat, input: string, api: PlayerApi) returns (outcome: TagOutcome)
      requires Valid()
      modifies this
      ensures Valid()
      ensures var key := NormalizeEnteredTag(input);
        && (key !in api ==> outcome == UnknownTag && accounts == old(accounts))
        && (key in api ==>
              && accounts == old(accounts) + [Account(StoredTag(api[key].tag), api[key].name, api[key].townHall, None)]
              && outcome == if index + 1 < accountCount then NextAccount(index + 1) else AllAccountsEntered)
      ensures questions == old(questions) && answers == old(answers) && current == old(current)
      ensures userId == old(userId) && accountCount == old(accountCount)
    {
      var key := NormalizeEnteredTag(input);
      if key !in api {
        return UnknownTag;
      }
      var player := api[key];
      accounts := accounts + [Account(StoredTag(player.tag), player.name, player.townHall, None)];
      if index + 1 < accountCount {
        outcome := NextAccount(index + 1);
      } else {
        outcome := AllAccountsEntered;
      }
    }

    /** Once the accounts are in: the interview starts over with the stored questions, or the
        defaults, and asks the first. */
    method StartInterview(stored: seq<string>) returns (step: Step)
      modifies this
      ensures Valid()
      ensures questions == QuestionsOrDefault(stored) && answers == [] && current == 0
      ensures step == AskStep(questions, 0) && step.AskQuestion?
      ensures accounts == old(accounts) && userId == old(userId) && accountCount == old(accountCount)
    {
      questions := QuestionsOrDefault(stored);
      answers := [];
      current := 0;
      step := AskStep(questions, 0);
    }

    /**
     * Done on the current question: the clicker's messages since the question was asked are
     * collected; with none, the click is refused; otherwise they are joined by newlines into
     * the question's answer and the next question, or the clan selection, follows.
     */
    method Done(clicker: int, history: seq<ChatMessage>) returns (outcome: DoneOutcome)
      requires Valid() && current < |questions|
      modifies this
      ensures Valid()
      ensures !old(MayUse(clicker)) ==> outcome == NotYours && answers == old(answers) && current == old(current)
      ensures old(MayUse(clicker)) && ContentsBy(history, clicker) == [] ==>
        outcome == NoAnswer && answers == old(answers) && current == old(current)
      ensures old(MayUse(clicker)) && ContentsBy(history, clicker) != [] ==>
        && answers == old(answers) + [Answer(old(questions[current]), Join(ContentsBy(history, clicker), '\n'))]
        && current == old(current) + 1
        && outcome == Answered(AskStep(questions, current))
      ensures questions == old(questions) && accounts == old(accounts)
      ensures userId == old(userId) && accountCount == old(accountCount)
    {
      if !MayUse(clicker) {
        return NotYours;
      }
      var said: seq<string> := [];
      var k := 0;
      while k < |history|
        invariant 0 <= k <= |history|
        invariant said == ContentsBy(history[..k], clicker)
      {
        assert history[..k + 1][..k] == history[..k];
        if history[k].authorId == clicker {
          said := said + [history[k].content];
        }
        k := k + 1;
      }
      assert history[..k] == history;
      if said == [] {
        return NoAnswer;
      }
      answers := answers + [Answer(questions[current], Join(said, '\n'))];
      current := current + 1;
      outcome := Answered(AskStep(questions, current));
    }

    /** The clan menu's choice for account `index`: the tag is recorded and the next account's
        clan choice, or the application, follows. */
    method SelectClan(clicker: int, index: nat, clanTag: string) returns (next: Option<SelectionStep>)
      requires index < |accounts|
      modifies this
      ensures !old(MayUse(clicker)) ==> next == None && accounts == old(accounts)
      ensures old(MayUse(clicker)) ==>
        && accounts == old(accounts)[index := old(accounts)[index].(selectedClanTag := Some(clanTag))]
        && next == Some(SelectionStepFor(accounts, index + 1))
      ensures questions == old(questions) && answers == old(answers) && current == old(current)
      ensures userId == old(userId) && accountCount == old(accountCount)
    {
      if !MayUse(clicker) {
        return None;
      }
      accounts := accounts[index := accounts[index].(selectedClanTag := Some(clanTag))];
      next := Some(SelectionStepFor(accounts, index + 1));
    }
  }

  // ---------------------------------------------------------------- the approval panel

  /** An Accept or Pass button of the leadership panel. */
  datatype Button = Button(customId: string, accountIndex: nat, accept: bool, disabled: bool)

  function AcceptId(i: nat): string {
    "accept_" + NatToString(i)
  }

  function PassId(i: nat): string {
    "pass_" + NatToString(i)
  }

  /** Button ids name their kind and account: equal ids mean the same kind and account. */
  lemma ButtonIdsDistinct(i: nat, j: nat)
    ensures AcceptId(i) == AcceptId(j) ==> i == j
    ensures PassId(i) == PassId(j) ==> i == j
    ensures AcceptId(i) != PassId(j)
  {
    if AcceptId(i) == AcceptId(j) {
      assert NatToString(i) == AcceptId(i)[7..] == AcceptId(j)[7..] == NatToString(j);
      NatToStringInjective(i, j);
    }
    if PassId(i) == PassId(j) {
      assert NatToString(i) == PassId(i)[5..] == PassId(j)[5..] == NatToString(j);
      NatToStringInjective(i, j);
    }
    assert AcceptId(i)[0] != PassId(j)[0];
  }

  /** An account whose clan choice is a real clan: present, and neither empty nor "none". */
  predicate HasSelection(a: Account) {
    a.selectedClanTag.Some? && a.selectedClanTag.value != "" && a.selectedClanTag.value != "none"
  }

  /** The buttons for account `i`: Accept then Pass, when it has a selection. */
  function ButtonsAt(i: nat, a: Account): seq<Button> {
    if HasSelection(a) then [Button(AcceptId(i), i, true, false), Button(PassId(i), i, false, false)] else []
  }

  /** The panel's buttons for the accounts, in account order. */
  function ButtonsFor(accounts: seq<Account>): seq<Button> {
    if accounts == [] then []
    else ButtonsFor(accounts[..|accounts| - 1]) + ButtonsAt(|accounts| - 1, accounts[|accounts| - 1])
  }

  /** A button's id names its kind and account. */
  predicate WellNamed(b: Button) {
    b.customId == if b.accept then AcceptId(b.accountIndex) else PassId(b.accountIndex)
  }

  /** Every button belongs to an account with a selection, is enabled and is named after its
      kind and account. */
  predicate PanelFor(bs: seq<Button>, accounts: seq<Account>) {
    forall k :: 0 <= k < |bs| ==>
      bs[k].accountIndex < |accounts| && HasSelection(accounts[bs[k].accountIndex])
      && !bs[k].disabled && WellNamed(bs[k])
  }

  /** Every button of the panel belongs to an account with a selection, is enabled and is
      named after its kind and account. */
  lemma {:induction false} ButtonsForWellFormed(accounts: seq<Account>)
    ensures PanelFor(ButtonsFor(accounts), accounts)
    decreases |accounts|
  {
    if accounts != [] {
      var n := |accounts| - 1;
      var init := accounts[..n];
      ButtonsForWellFormed(init);
      var front := ButtonsFor(init);
      var bs := ButtonsFor(accounts);
      assert bs == front + ButtonsAt(n, accounts[n]);
      forall k | 0 <= k < |bs|
        ensures bs[k].accountIndex < |accounts| && HasSelection(accounts[bs[k].accountIndex])
                && !bs[k].disabled && WellNamed(bs[k])
      {
        if k < |front| {
          assert bs[k] == front[k];
          assert init[front[k].accountIndex] == accounts[front[k].accountIndex];
        }
      }
    }
  }

  /** Every account with a selection gets its Accept and its Pass button. */
  lemma {:induction false} ButtonsForCoverSelections(accounts: seq<Account>)
    ensures forall i :: 0 <= i < |accounts| && HasSelection(accounts[i]) ==>
      Button(AcceptId(i), i, true, false) in ButtonsFor(accounts) && Button(PassId(i), i, false, false) in ButtonsFor(accounts)
    decreases |accounts|
  {
    if accounts != [] {
      var n := |accounts| - 1;
      var init := accounts[..n];
      ButtonsForCoverSelections(init);
      var bs := ButtonsFor(accounts);
      assert bs == ButtonsFor(init) + ButtonsAt(n, accounts[n]);
      forall i | 0 <= i < |accounts| && HasSelection(accounts[i])
        ensures Button(AcceptId(i), i, true, false) in bs && Button(PassId(i), i, false, false) in bs
      {
        if i < n {
          assert init[i] == accounts[i];
        }
      }
    }
  }

  /** The buttons after those of account `index` are disabled. */
  function DisabledFor(bs: seq<Button>, index: nat): (after: seq<Button>)
    ensures |after| == |bs|
  {
    seq(|bs|, k requires 0 <= k < |bs| =>
      if bs[k].customId == AcceptId(index) || bs[k].customId == PassId(index) then bs[k].(disabled := true) else bs[k])
  }

  /** Acting on account `index` disables exactly its two buttons: every other button is left
      as it was. */
  lemma DisableOnlyThatAccount(bs: seq<Button>, index: nat)
    requires forall k :: 0 <= k < |bs| ==> WellNamed(bs[k])
    ensures forall k :: 0 <= k < |bs| ==>
      DisabledFor(bs, index)[k] == if bs[k].accountIndex == index then bs[k].(disabled := true) else bs[k]
  {
    forall k | 0 <= k < |bs|
      ensures DisabledFor(bs, index)[k] == if bs[k].accountIndex == index then bs[k].(disabled := true) else bs[k]
    {
      ButtonIdsDistinct(bs[k].accountIndex, index);
      ButtonIdsDistinct(index, bs[k].accountIndex);
    }
  }

  /** `i` is the first clan listed with tag `tag`. */
  predicate FirstWithTag(clans: seq<Clan>, tag: string, i: int) {
    && 0 <= i < |clans|
    && clans[i].tag == tag
    && forall j :: 0 <= j < i ==> clans[j].tag != tag
  }

  /** The clan the buttons of account `index` act for: the first listed clan with the tag the
      account selected, None for an account without a selection. */
  function ClanFor(accounts: seq<Account>, clans: seq<Clan>, index: nat): Option<Clan> {
    if index < |accounts| && HasSelection(accounts[index]) then FindByTag(clans, accounts[index].selectedClanTag.value)
    else None
  }

  /** A user may act on account `index` exactly when the account selected a clan, a clan with
      that tag is listed, and the user is the first such clan's leader or holds its leadership
      role. */
  lemma ClanForPermission(accounts: seq<Account>, clans: seq<Clan>, index: nat, userId: int, userRoles: seq<int>)
    ensures CheckPermission(ClanFor(accounts, clans, index), userId, userRoles) <==>
      && index < |accounts| && HasSelection(accounts[index])
      && exists i :: FirstWithTag(clans, accounts[index].selectedClanTag.value, i)
                     && (clans[i].leadershipRoleId.GetOr(0) in userRoles || userId == clans[i].leaderId.GetOr(0))
  {
    if index < |accounts| && HasSelection(accounts[index]) {
      var tag := accounts[index].selectedClanTag.value;
      var found := FindByTag(clans, tag);
      if found.Some? {
        var w :| 0 <= w < |clans| && clans[w] == found.value && clans[w].tag == tag
                 && forall j :: 0 <= j < w ==> clans[j].tag != tag;
        assert FirstWithTag(clans, tag, w);
        forall i | FirstWithTag(clans, tag, i)
          ensures i == w
        {
          assert !(i < w) && !(w < i);
        }
      } else {
        forall i | FirstWithTag(clans, tag, i)
          ensures false
        {
        }
      }
    }
  }

  /** The leadership panel posted with an application. */
  class ApprovalPanel {
    var buttons: seq<Button>
    /** The accounts and the listed clans as they were when the panel was posted: each
        button's clan is fixed then. */
    var accounts: seq<Account>
    var clans: seq<Clan>

    /** One Accept and one Pass button per account with a selection. */
    constructor (accounts: seq<Account>, clans: seq<Clan>)
      ensures buttons == ButtonsFor(accounts)
      ensures this.accounts == accounts && this.clans == clans
    {
      var made: seq<Button> := [];
      var i := 0;
      while i < |accounts|
        invariant 0 <= i <= |accounts|
        invariant made == ButtonsFor(accounts[..i])
      {
        assert accounts[..i + 1][..i] == accounts[..i];
        var a := accounts[i];
        if HasSelection(a) {
          made := made + [Button(AcceptId(i), i, true, false), Button(PassId(i), i, false, false)];
        }
        i := i + 1;
      }
      assert accounts[..i] == accounts;
      buttons := made;
      this.accounts := accounts;
      this.clans := clans;
    }

    /** Accept or Pass on account `index`, for the first listed clan with the tag the account
        selected: refused without permission; otherwise the account's two buttons are
        disabled. */
    method Act(index: nat, userId: int, userRoles: seq<int>) returns (allowed: bool)
      modifies this
      ensures allowed == CheckPermission(ClanFor(accounts, clans, index), userId, userRoles)
      ensures accounts == old(accounts) && clans == old(clans)
      ensures allowed ==> buttons == DisabledFor(old(buttons), index)
      ensures !allowed ==> buttons == old(buttons)
    {
      var clan := ClanFor(accounts, clans, index);
      allowed := CheckPermission(clan, userId, userRoles);
      if !allowed {
        return;
      }
      var k := 0;
      ghost var before := buttons;
      while k < |buttons|
        invariant 0 <= k <= |buttons| && |buttons| == |before|
        invariant forall j :: 0 <= j < |buttons| ==> buttons[j] == if j < k then DisabledFor(before, index)[j] else before[j]
        invariant accounts == old(accounts) && clans == old(clans)
      {
        if buttons[k].customId == AcceptId(index) || buttons[k].customId == PassId(index) {
          buttons := buttons[k := buttons[k].(disabled := true)];
        }
        k := k + 1;
      }
    }
  }
}
