# BSN Discord bot — a Dafny model of its rules

This project models the decision-making core of the Blackspire Nation Discord bot in Dafny.
Five areas are covered:

- **The BSN Cup tournament.** Team registration checks a roster of three players at Town Hall 18, 17 and 16. The tags must be distinct and not already on another team, each player must be known to the game API at the right Town Hall, and the captain must be on the roster. Staff can approve or reject a pending team, edit a roster, reset the tournament, and generate single-elimination rounds. Before a round is generated, the previous round's losers are eliminated, the survivors are shuffled and paired, and the matches are saved by id. Further parts are the page-playoff semi-final gate and the bracket's "diff" match lines.
- **The counting game.** It has a per-guild counting channel. A message is refused when it is not a number, is not the next number, or comes from whoever counted last. Milestone numbers get an announcement.
- **The recruitment ticket flow.** An applicant enters player tags, which are normalised and stored, and answers the interview questions one "Done" at a time. They then pick a clan from those whose type, minimum Town Hall and visibility fit the account. Clans shown without war league or capital hall stats have them refreshed from the game API. Leadership accepts or passes each account from a panel of buttons that only a clan's leader or leadership role may use.
- **The clan dashboard.** It covers the interview-question form, the bulk visibility menu, the `min_th` field edit, the type-and-Town-Hall gate before a clan is set up, and the record a new clan is saved as.
- **The admin commands.** The invite command looks a clan up by tag, ignoring the case typed. Its autocomplete offers up to 25 clans whose name or tag contains the typed text, ignoring case.

The Mongo collections are Dafny maps keyed the way the bot keys its documents:

- teams and pending teams by name
- matches by id
- clans by tag
- counting channels by guild id

A `$set` upsert of a team or a clan is modelled as a map update that keeps the stored fields the new document lacks. Saving a generated round's matches writes each whole match document. The ids of a new round are fresh, so replacing and `$set` agree there. The Clash of Clans API is a map from tag to player or clan details. Objects the bot updates in place are Dafny classes with `modifies` clauses: the tournament state, the counting store, the clan store, the applicant's session, the approval panel, the question store and the clan-setup view.

Module layout:

- `Wrappers`: `Option` and `Result`.
- `Text`: the string operations the handlers use, over ASCII.
- `GameApi`: the API's players and clan details.
- `Clans`: the shared clan record, the lookup by tag, the capital-hall rule and the clan store.
- `Counting`.
- `BsnTeams`, `BsnMatches`, `BsnCup`.
- `Tickets`, `Dashboard`, `AdminCommands`.

## Model

| member | source | states |
|---|---|---|
| Text.TrimStart | cogs/bsn_cup/bsn_cup_system.py:56-59 | what remains is a suffix of the input, every dropped character is in the strip set, and the first kept one is not |
| Text.TrimEnd | cogs/bsn_cup/bsn_cup_system.py:56-59 | what remains is a prefix of the input, every dropped character is in the strip set, and the last kept one is not |
| Text.StripCharsEnds | cogs/tickets/ticket_system.py:351 | a stripped string neither starts nor ends with a stripped character |
| Text.StripCharsSlice | cogs/tickets/ticket_system.py:351 | a stripped string is a contiguous slice of its input |
| Text.StripCharsNothingToStrip | cogs/tickets/ticket_system.py:351 | a string whose ends are not in the strip set is left unchanged |
| Text.StripCharsAfterStripped | cogs/tickets/ticket_system.py:351 | a leading character from the strip set makes no difference to the result |
| Text.StripCharsIdempotent | cogs/bsn_cup/bsn_cup_system.py:56-59 | stripping twice gives the same as stripping once |
| Text.Upper | cogs/bsn_cup/bsn_cup_system.py:56-59 | same length, each character upper-cased |
| Text.Lower | cogs/slash_commands/admin_commands.py:51 | same length, each character lower-cased |
| Text.RemoveChar | cogs/tickets/ticket_system.py:341 | the removed character no longer occurs, and every other character of the input survives |
| Text.NatToString | cogs/bsn_cup/bsn_cup_system.py:548 | the decimal rendering is all digits, with no leading zero |
| Text.DigitsValueOfNatToString | cogs/dashboards/clan_dashboard.py:286-288 | `int(str(n)) == n` |
| Text.NatToStringInjective | cogs/bsn_cup/bsn_cup_system.py:548 | different numbers render differently |
| Text.IndexOf | cogs/dashboards/clan_dashboard.py:336 | the position holds the separator and none occurs before it |
| Text.IndexOfFirst | cogs/dashboards/clan_dashboard.py:336 | any first occurrence of the separator is the one found |
| Text.Split | cogs/dashboards/clan_dashboard.py:336 | a split is never empty and no part holds the separator |
| Text.SplitJoin | cogs/dashboards/clan_dashboard.py:336 | splitting a join of separator-free parts gives the parts back |
| Text.JoinSplit | cogs/dashboards/clan_dashboard.py:336 | joining a split gives the text back |
| Text.IsSubstringIffOccurs | cogs/slash_commands/admin_commands.py:51 | `needle in hay` holds exactly when the needle occurs at some position |
| Clans.FindByTag | cogs/slash_commands/admin_commands.py:20 | None iff no clan has the tag; otherwise the first clan listed with that tag |
| Clans.WarLeagueName | cogs/tickets/ticket_system.py:492 | the league's name, or "Unranked" when the clan has no league |
| Clans.CapitalHall | cogs/tickets/ticket_system.py:495-511 | the hall is the API's capital hall level, else that of the first Capital Peak district, else that of the first district, else "N/A" |
| Clans.CapitalHallUnique | cogs/dashboards/clan_dashboard.py:190-203 | the capital-hall rule names exactly one value |
| Clans.ClanStore.Save | utils/mongo_manager.py:48-57 | `$set` upsert under the tag: a new tag stores the document as it is; a known tag gets the merge, keeping each stored field the new document lacks; every document stays under its own tag |
| Clans.MergedIdempotent | utils/mongo_manager.py:48-57 | saving the same document twice is saving it once |
| Clans.MergedComplete | utils/mongo_manager.py:48-57 | a document carrying every field replaces the stored one outright |
| Clans.ClanStore.UpdateField | utils/mongo_manager.py:59-66 | sets one field of the document with that tag; an unknown tag changes nothing |
| Counting.MilestoneFor | cogs/counting/counting.py:101-102 | an announcement exactly for milestone numbers, with that milestone's text |
| Counting.Judge | cogs/counting/counting.py:63-94 | the verdict, one branch per check in source order: ignored iff not a human message in the configured channel; not a number iff the stripped content is not all digits; wrong number iff it is not count+1 (with the expected number); counted twice iff it is right but the author counted last; otherwise accepted as count+1 |
| Counting.RunCount | cogs/counting/counting.py:96-99 | over any message stream, the count rises by the number of accepted numbers and the last accepted author is recorded; with none accepted the record is unchanged |
| Counting.AcceptedNumbersConsecutive | cogs/counting/counting.py:80-88 | the accepted numbers of any stream are count+1, count+2, … with no gap |
| Counting.NoDoubleCounting | cogs/counting/counting.py:90-94 | consecutive accepted numbers never share an author, nor does the first with the last recorded counter |
| Counting.CountingChannels.SetupCounting | cogs/counting/counting.py:52-54 | the guild's record becomes the channel with count 0 and no last counter |
| Counting.CountingChannels.DisableCounting | cogs/counting/counting.py:58-60 | the guild's record is deleted and no other changes |
| Counting.CountingChannels.OnMessage | cogs/counting/counting.py:63-102 | the verdict is `Judge` on the guild's record; only an accepted number changes the store (count +1, author recorded); a milestone is announced exactly for an accepted milestone number |
| BsnTeams.RosterTags | cogs/bsn_cup/bsn_cup_system.py:56-59 | three tags in slot order, each the normalisation of its slot's text, and each normal: no surrounding white space and no lower-case letter |
| BsnTeams.NormalizeTagShape | cogs/bsn_cup/bsn_cup_system.py:56-59 | a normalised tag is normal, and normalising it again changes nothing |
| BsnTeams.NormalizeTagKeepsText | cogs/bsn_cup/bsn_cup_system.py:56-59 | a normalised tag is a slice of the typed text, upper-cased, with only white space around it |
| BsnTeams.ConflictsEmptyIff | cogs/bsn_cup/bsn_cup_system.py:71-77 | no conflict is reported iff no other stored team has one of the tags on its roster |
| BsnTeams.FetchRoster | cogs/bsn_cup/bsn_cup_system.py:79-89 | succeeds iff every tag is a known player at its slot's Town Hall; the roster is then those players in slot order |
| BsnTeams.FetchRosterFailsAt | cogs/bsn_cup/bsn_cup_system.py:79-89 | a failed lookup reports the first failing slot's error (unknown tag or wrong Town Hall) |
| BsnTeams.FindCaptain | cogs/bsn_cup/bsn_cup_system.py:91-102 | None iff no roster player has the captain tag; otherwise the name of the first one who has it |
| BsnTeams.ValidateRosterAccepts | cogs/bsn_cup/bsn_cup_system.py:61-89 | a roster passes iff its tags are distinct, none is on another team and every slot's player is known at the right Town Hall; the result is then those players |
| BsnTeams.ValidateRosterRefuses | cogs/bsn_cup/bsn_cup_system.py:61-89 | each refusal names the first rule broken: duplicates iff tags repeat, then conflicts with another team, then the first failing slot |
| BsnTeams.RegisterAccepted | cogs/bsn_cup/bsn_cup_system.py:52-115 | an accepted registration passed the roster checks, and its captain is on its roster under the captain name stored; it keeps the form's name and applicant, is pending and carries no elimination flag |
| BsnTeams.RegisterCaptainRule | cogs/bsn_cup/bsn_cup_system.py:91-102 | with a valid roster, a registration is refused iff the captain tag is not on it, and the refusal names the tag |
| BsnTeams.TagsOf | cogs/bsn_cup/bsn_cup_system.py:379 | the roster's tags in order |
| BsnTeams.EditTeamAccepted | cogs/bsn_cup/bsn_cup_system.py:361-406 | an accepted edit passed the roster checks with the edited team skipped; the captain is on the new roster and is kept when still on it; only name, players and captain tag change; the old name is dropped iff the team was renamed |
| BsnTeams.Upsert | utils/mongo_manager.py:183-192 | `$set` upsert by name: the other teams are untouched, and the stored document's elimination flag is kept when the new one has none |
| BsnTeams.UpsertKeyedByName | utils/mongo_manager.py:183-192 | the upsert keeps every team under its own name |
| BsnMatches.LoserIsTheOtherSide | cogs/bsn_cup/bsn_cup_system.py:503-518 | when the winner is one of two different sides, the loser is the other side |
| BsnMatches.MaxRoundExists | cogs/bsn_cup/bsn_cup_system.py:488-489 | a non-empty collection of matches has a highest round |
| BsnMatches.MaxRound | cogs/bsn_cup/bsn_cup_system.py:488-489 | the value is the highest round of any stored match |
| BsnMatches.NextRoundGate | cogs/bsn_cup/bsn_cup_system.py:487-496 | a round is generated iff every match of the highest round is completed; it is then above every stored round (1 when none is stored); a refusal has an open match of the highest round |
| BsnMatches.Pairing | cogs/bsn_cup/bsn_cup_system.py:538-559 | half as many matches as teams; match k pairs teams 2k and 2k+1 as pending `R{round}_M{k+1}` |
| BsnMatches.PairedSoFarExtend | cogs/bsn_cup/bsn_cup_system.py:538-559 | pairing the next two teams extends the matches paired so far |
| BsnMatches.PairedSoFarComplete | cogs/bsn_cup/bsn_cup_system.py:538-559 | once fewer than two teams remain unpaired, the matches created are the whole pairing |
| BsnMatches.DigitRunOf | cogs/bsn_cup/bsn_cup_system.py:548 | the run of leading digits of a number followed by a non-digit is that number |
| BsnMatches.MatchIdInjective | cogs/bsn_cup/bsn_cup_system.py:548 | equal match ids have equal round and match numbers |
| BsnMatches.PairingIdsDistinct | cogs/bsn_cup/bsn_cup_system.py:538-559 | the matches of a generated round have pairwise different ids |
| BsnMatches.PairingPlaysEachTeamOnce | cogs/bsn_cup/bsn_cup_system.py:538-559 | with distinct teams, no match is a team against itself, no team plays twice, and a team plays iff it is not the bye |
| BsnMatches.SaveAll | utils/mongo_manager.py:231-240 | every old and every saved id is stored, and the last saved match is stored as given |
| BsnMatches.SaveAllValues | utils/mongo_manager.py:231-240 | every stored match is an old one left untouched or one of the saved ones, stored under its own id |
| BsnMatches.SaveAllStoresEach | utils/mongo_manager.py:231-240 | with distinct ids, each saved match is stored as given and every other stored match is unchanged |
| BsnMatches.GenerationBlocksItself | cogs/bsn_cup/bsn_cup_system.py:487-496 | once a round is generated, generating again is refused until that round is played |
| BsnMatches.SemiFinalDue | cogs/bsn_cup/bsn_cup_system.py:587-605 | refused iff no match is in the page playoff; a semi-final is due iff qualifier 1 and eliminator 1 are completed and no semi-final exists, with qualifier 1's loser in it |
| BsnMatches.SemiFinalOnce | cogs/bsn_cup/bsn_cup_system.py:598-603 | once a semi-final is stored, no second one is due |
| BsnMatches.FormatMatchLineReadsBack | cogs/bsn_cup/bsn_cup_system.py:620-641 | the match line is two lines, one per side: "+ " marks the winner, "- " the other side of a decided match, "  " a pending match, and " (Draw)" follows both names of a completed match without either side as winner |
| BsnCup.EliminationRule | cogs/bsn_cup/bsn_cup_system.py:503-518 | after the losers are marked, a team is out iff it was out before or lost; the active teams are the former ones less the losers; nothing but the flag changes |
| BsnCup.WinnerSurvives | cogs/bsn_cup/bsn_cup_system.py:503-518 | when no team plays twice in a round, a match winner is not among that round's losers |
| BsnCup.ResetReinstatesAll | cogs/bsn_cup/bsn_cup_system.py:277-290 | after a reset every team is active and no other field of any team changes |
| BsnCup.ArrangementSize | cogs/bsn_cup/bsn_cup_system.py:528-535 | an arrangement of a set of teams has one entry per team |
| BsnCup.MaxRoundUnique | cogs/bsn_cup/bsn_cup_system.py:488-489 | any highest round found is the one the gate uses |
| BsnCup.Tournament.constructor | utils/mongo_manager.py:183-251 | all three collections start empty |
| BsnCup.Tournament.Submit | cogs/bsn_cup/bsn_cup_system.py:52-115 | the outcome is `Register` on the stored teams; an accepted team is upserted into the pending collection; nothing else changes |
| BsnCup.Tournament.SavePending | utils/mongo_manager.py:209-218 | the team is upserted into the pending collection and the other collections are untouched |
| BsnCup.Tournament.Approve | cogs/bsn_cup/bsn_cup_system.py:146-164 | approved iff the name is pending; the team then moves from pending to the active collection with status active; an unknown name changes nothing |
| BsnCup.Tournament.Reject | cogs/bsn_cup/bsn_cup_system.py:198-202 | the pending registration is deleted and nothing else changes |
| BsnCup.Tournament.SubmitEdit | cogs/bsn_cup/bsn_cup_system.py:361-406 | for a stored team, the outcome is `EditTeam`; the old name is deleted iff a valid edit renamed the team |
| BsnCup.Tournament.Reset | cogs/bsn_cup/bsn_cup_system.py:277-290 | every match is deleted, every eliminated team is reinstated, pending teams are untouched |
| BsnCup.Tournament.RoundGate | cogs/bsn_cup/bsn_cup_system.py:487-496 | the scan for the highest round gives the gate's result |
| BsnCup.Tournament.EliminateLosers | cogs/bsn_cup/bsn_cup_system.py:510-516 | every loser that is a stored team is marked eliminated; nothing else changes |
| BsnCup.Tournament.ListActive | cogs/bsn_cup/bsn_cup_system.py:518-535 | the teams listed are exactly the active teams, each once, in some order |
| BsnCup.Tournament.SaveRound | cogs/bsn_cup/bsn_cup_system.py:538-559 | the matches created are the pairing of the order, the bye is its odd last team, and each match is saved |
| BsnCup.Tournament.GenerateRound | cogs/bsn_cup/bsn_cup_system.py:483-559 | refused, changing nothing, while the highest round is open; otherwise the previous round's losers are eliminated (from round 2), and with fewer than two active teams it is refused; else the active teams, shuffled, are paired into the next round and saved, and no team plays twice in that round |
| BsnCup.GeneratedRoundOneMatchPerTeam | cogs/bsn_cup/bsn_cup_system.py:530-559 | with distinct teams, the saved round gives each team at most one match of that round |
| Tickets.UpperOfUpper | cogs/tickets/ticket_system.py:341 | upper-casing text without lower-case letters changes nothing |
| Tickets.NormalizeEnteredTagIdempotent | cogs/tickets/ticket_system.py:341 | a normalised tag has no `#` and no lower-case letter, and normalising it again changes nothing |
| Tickets.NoCharLeftToRemove | cogs/tickets/ticket_system.py:341 | removing an absent character changes nothing |
| Tickets.StoredTagShape | cogs/tickets/ticket_system.py:351 | a stored tag starts with exactly one `#` and ends without one unless it is just "#" |
| Tickets.StoredTagIdempotent | cogs/tickets/ticket_system.py:351 | storing a stored tag again changes nothing |
| Tickets.EligibleClans | cogs/tickets/ticket_system.py:482 | a clan is offered iff it is stored, has the account's type ignoring case, a minimum Town Hall the account meets and is not hidden |
| Tickets.EligibleClansKeepsOrder | cogs/tickets/ticket_system.py:482 | the filter keeps the stored order |
| Tickets.HiddenClansNeverOffered | cogs/tickets/ticket_system.py:482 | a clan marked invisible is never offered |
| Tickets.StoreAfterRule | cogs/tickets/ticket_system.py:486-519 | with one offered clan per tag, exactly the refreshed clans' stored documents take the shown war league and capital hall; every other document is unchanged |
| Tickets.RefreshOne | cogs/tickets/ticket_system.py:486-519 | a clan lacking a stat that the API returns is shown and stored with the API's war league and capital hall; any other clan is shown as it is |
| Tickets.RefreshStats | cogs/tickets/ticket_system.py:484-526 | each offered clan is shown refreshed iff it lacks a stat and the API returns it, else unchanged; the store follows `StoreAfter` |
| Tickets.PermissionRules | cogs/tickets/ticket_system.py:670-683 | no permission without a clan; a clan with no leader or role stored authorises no user with positive ids; more roles never remove permission |
| Tickets.QuestionsOrDefault | cogs/tickets/ticket_system.py:272-274 | never empty; the stored questions when there are some |
| Tickets.ContentsByAppend | cogs/tickets/ticket_system.py:302-309 | the collected answers follow the channel's order |
| Tickets.ContentsByOnlyUser | cogs/tickets/ticket_system.py:302-309 | every collected answer is a message by the clicker |
| Tickets.AskStep | cogs/tickets/ticket_system.py:46-66 | the clan selection follows iff every question was asked; otherwise question `index` is asked |
| Tickets.SelectionStepFor | cogs/tickets/ticket_system.py:68-77 | the application is submitted iff every account has a clan; otherwise account `index` is next |
| Tickets.Session.constructor | cogs/tickets/ticket_system.py:225-231 | a session starts with no accounts, questions or answers |
| Tickets.Session.EnterTag | cogs/tickets/ticket_system.py:340-397 | an unknown tag is refused and nothing changes; a known player is appended with its stored tag, and the next account is asked for or the collection ends |
| Tickets.Session.StartInterview | cogs/tickets/ticket_system.py:272-281 | the interview restarts at the first of the stored or default questions |
| Tickets.Session.Done | cogs/tickets/ticket_system.py:292-314 | a click by another user is refused; with no message from the clicker nothing is recorded; otherwise their messages, joined by newlines, answer the current question and the next step follows |
| Tickets.Session.SelectClan | cogs/tickets/ticket_system.py:552-566 | only the applicant's choice is recorded, on that account alone, and the next selection step follows |
| Tickets.ButtonIdsDistinct | cogs/tickets/ticket_system.py:582-587 | button ids name their kind and account uniquely |
| Tickets.ButtonsForWellFormed | cogs/tickets/ticket_system.py:576-589 | every button belongs to an account with a real selection, is enabled and is named after its kind and account |
| Tickets.ButtonsForCoverSelections | cogs/tickets/ticket_system.py:576-589 | every account with a real selection gets its Accept and its Pass button |
| Tickets.DisabledFor | cogs/tickets/ticket_system.py:626-628 | the number of buttons is unchanged |
| Tickets.DisableOnlyThatAccount | cogs/tickets/ticket_system.py:626-628 | acting on an account disables exactly its two buttons and leaves every other as it was |
| Tickets.ApprovalPanel.constructor | cogs/tickets/ticket_system.py:569-589 | one Accept and one Pass button per account with a selection; the accounts and listed clans are kept, fixing each button's clan |
| Tickets.ApprovalPanel.Act | cogs/tickets/ticket_system.py:576-668 | allowed iff `check_permission` holds for the first listed clan with the tag the account selected; then exactly that account's buttons are disabled, else nothing changes |
| Tickets.ClanForPermission | cogs/tickets/ticket_system.py:670-683 | a user may act on an account iff it selected a clan, a clan with that tag is listed, and the user leads the first such clan or holds its leadership role |
| Dashboard.NonBlank | cogs/dashboards/clan_dashboard.py:337 | never more questions than lines |
| Dashboard.StripOfClean | cogs/dashboards/clan_dashboard.py:337 | a clean question has nothing to strip |
| Dashboard.StripKeepsOut | cogs/dashboards/clan_dashboard.py:337 | stripping adds no character the line lacks |
| Dashboard.StrippedLineClean | cogs/dashboards/clan_dashboard.py:337 | a non-blank line, stripped, is a clean question |
| Dashboard.NonBlankClean | cogs/dashboards/clan_dashboard.py:336-337 | lines without a newline give clean questions |
| Dashboard.ParsedQuestionsClean | cogs/dashboards/clan_dashboard.py:336-337 | every saved question is non-blank, stripped and a single line |
| Dashboard.NonBlankKeepsClean | cogs/dashboards/clan_dashboard.py:337 | a clean first line is kept as it is |
| Dashboard.NonBlankOfClean | cogs/dashboards/clan_dashboard.py:337 | clean questions pass through unchanged |
| Dashboard.ParseQuestionsOfLines | cogs/dashboards/clan_dashboard.py:336-338 | typing clean questions one per line saves exactly them, in order |
| Dashboard.ParseQuestionsIdempotent | cogs/dashboards/clan_dashboard.py:336-338 | re-submitting the saved list saves the same list |
| Dashboard.NonBlankEmptyIff | cogs/dashboards/clan_dashboard.py:337 | no question is kept iff every line is blank |
| Dashboard.InterviewAsksSavedQuestions | cogs/tickets/ticket_system.py:272-274 | an all-blank form saves no question and the interview falls back to the defaults; otherwise it asks exactly the saved questions |
| Dashboard.QuestionStore.Stored | utils/mongo_manager.py:41-46 | the stored list for the ticket type, or none |
| Dashboard.QuestionStore.ConfigureQuestions | cogs/dashboards/clan_dashboard.py:335-338 | the parsed, clean list replaces the join-clan questions and nothing else |
| Dashboard.VisibilityOptions | cogs/dashboards/clan_dashboard.py:58-68 | one option per clan, titled by name, valued by tag, pre-selected iff the clan is visible |
| Dashboard.DefaultSelection | cogs/dashboards/clan_dashboard.py:58-68 | a tag is submitted by an untouched menu iff its option is pre-selected |
| Dashboard.VisibilityAfterRule | cogs/dashboards/clan_dashboard.py:80-89 | each listed clan's document becomes visible iff its tag was selected; every other document, and the set of documents, is unchanged |
| Dashboard.UntouchedMenuKeepsOne | cogs/dashboards/clan_dashboard.py:58-89 | with the menu left untouched, a listed clan is selected iff it was visible |
| Dashboard.UntouchedMenuKeepsVisibility | cogs/dashboards/clan_dashboard.py:58-89 | submitting the menu untouched leaves every clan's visibility as it was |
| Dashboard.ApplyVisibility | cogs/dashboards/clan_dashboard.py:80-89 | the store follows `VisibilityAfter` and the count reported is the number of tags selected |
| Dashboard.MinThInput | cogs/dashboards/clan_dashboard.py:286-291 | accepted iff the input is all digits |
| Dashboard.MinThInputOfCurrent | cogs/dashboards/clan_dashboard.py:286-291 | the current value written out is accepted as itself |
| Dashboard.MinThInputRefuses | cogs/dashboards/clan_dashboard.py:286-291 | an empty input or one with a non-digit is refused |
| Dashboard.EditMinTh | cogs/dashboards/clan_dashboard.py:281-293 | applied iff the input is all digits; the clan's document then takes the number, otherwise nothing changes |
| Dashboard.MinThOptionsAreLevels | cogs/dashboards/clan_dashboard.py:91-130 | every minimum Town Hall on offer is a number from 11 to 17 |
| Dashboard.ClanSetup.constructor | cogs/dashboards/clan_dashboard.py:92-95 | nothing is chosen yet |
| Dashboard.ClanSetup.SelectType | cogs/dashboards/clan_dashboard.py:97-103 | records the type chosen and leaves the Town Hall choice alone |
| Dashboard.ClanSetup.SelectMinTh | cogs/dashboards/clan_dashboard.py:105-116 | records the Town Hall chosen and leaves the type alone |
| Dashboard.ClanSetup.Next | cogs/dashboards/clan_dashboard.py:119-130 | proceeds iff both choices are made, handing over an offered type and a level from 11 to 17 |
| Dashboard.NewClanWarLeague | cogs/dashboards/clan_dashboard.py:189 | the API's league name, else "Unranked" |
| Dashboard.NewClanRecord | cogs/dashboards/clan_dashboard.py:132-221 | the record has the entered fields with the tag upper-cased, the API's war league, a capital hall by the capital-hall rule ("N/A" without details), and no `visible` field, so it shows as visible |
| Dashboard.AddClan | cogs/dashboards/clan_dashboard.py:205-219 | the new record is upserted under its tag and nothing else changes; a clan never stored is visible; a clan added again takes the entered fields and keeps its stored visibility |
| AdminCommands.InviteLookup | cogs/slash_commands/admin_commands.py:20-24 | not found iff no stored tag equals the input upper-cased; otherwise a stored clan with that tag |
| AdminCommands.UpperOfLower | cogs/slash_commands/admin_commands.py:20 | upper-casing a lower-cased string is upper-casing it |
| AdminCommands.LowerOfUpper | cogs/slash_commands/admin_commands.py:51 | lower-casing an upper-cased string is lower-casing it |
| AdminCommands.InviteLookupIgnoresCase | cogs/slash_commands/admin_commands.py:20 | the lookup ignores the case the tag is typed in |
| AdminCommands.InviteLookupMissesLowerCaseTags | cogs/slash_commands/admin_commands.py:20 | a stored tag with a lower-case letter is never found |
| AdminCommands.Matching | cogs/slash_commands/admin_commands.py:49-51 | exactly the stored clans whose lower-cased name or tag contains the lower-cased text are kept |
| AdminCommands.MatchingAppend | cogs/slash_commands/admin_commands.py:49-51 | matching keeps the stored order |
| AdminCommands.MatchingOne | cogs/slash_commands/admin_commands.py:51 | a single clan is kept iff it matches |
| AdminCommands.Autocomplete | cogs/slash_commands/admin_commands.py:52 | at most 25 choices |
| AdminCommands.AutocompleteShape | cogs/slash_commands/admin_commands.py:47-52 | the choices are the first matching clans in order, as many as fit in 25, named by clan name with the tag as value |
| AdminCommands.AutocompleteSound | cogs/slash_commands/admin_commands.py:47-52 | every choice is a stored clan whose name or tag contains the typed text, ignoring case |
| AdminCommands.AutocompleteEmptyInput | cogs/slash_commands/admin_commands.py:51 | before anything is typed, every clan matches |
| AdminCommands.MatchingAllMatch | cogs/slash_commands/admin_commands.py:51 | when every clan matches, all are kept |
| AdminCommands.AutocompleteIgnoresCase | cogs/slash_commands/admin_commands.py:51 | the typed text's case does not change the choices |
| AdminCommands.MatchingSameLower | cogs/slash_commands/admin_commands.py:51 | texts with the same lower case match the same clans |

## Left out

- Discord itself is not modelled: embeds, views, modals, threads, DMs, reactions, message deletion, `wait_for`, base screenshots, timeouts. Each handler is modelled by the state change and outcome it decides.
- The database driver and the game API client are not modelled. The collections are Dafny maps and the API is a map from tag to player or clan details; an API error is the same as an unknown tag.
- The shuffle of the active teams in single elimination is left open. `BsnCup.Tournament.ListActive` returns the active teams in an arbitrary order, and every property holds for every order.
- The lines after the roster edit's validation (cogs/bsn_cup/bsn_cup_system.py:407-428) and the page-playoff semi-final record after line 605 are not part of the model. The edit's write-back is modelled only as the edited record and whether the old name is deleted. The semi-final step is modelled only as its gate and qualifier 1's loser.
- The page-playoff qualifier and eliminator creation, the grand final, round-robin and double elimination are not modelled. They lie outside the single-elimination engine and the semi-final gate.
- BsnTeams.Conflicts reports the set of every conflicting (tag, team) pair. The source reports the first conflict in database cursor order, which a map does not have.
- BsnTeams.EditTeam keeps the stored captain name when the captain passes to the TH18 player, as the source's edit path does. The model states this as it is and claims no fault.
- Match dates, the match-result modal, team removal and the bracket embed's layout around the match lines are not modelled. They only display or store what staff typed.
- Text: case mapping, white space and `isdigit` follow Python only on ASCII. All ASCII white space is modelled, including U+001C to U+001F. Non-ASCII characters Python treats as white space or digits (U+0085, U+00A0, U+0660, ...) are not.
- Only the `min_th` edit of the dashboard's field form is modelled. Other fields are stored as typed. The `clan_tag` edit's stats refresh repeats the capital-hall rule modelled in `Clans.CapitalHall`.
- Dashboard.NewClanRecord takes the leader and role ids as integers. The parsing of mentions typed in chat, and the timeouts of that conversation, are not modelled.
- Tickets.RefreshStats states the stored result through `StoreAfter`. The rule that only refreshed clans change is proved in `Tickets.StoreAfterRule` for offered clans with distinct tags, which is what one read of the clans collection yields.
- AdminCommands.InviteLookup upper-cases only the typed tag. A clan stored with a lower-case tag (possible through the field edit, which stores the tag as typed) can never be found; `AdminCommands.InviteLookupMissesLowerCaseTags` states this.
- The continent, age and account-count menus of the ticket flow, the application summary and the leadership ping are not modelled. They only collect display text.
- Interaction checks on modals and error replies after exceptions are not modelled, except `check_permission` and the session's `interaction_check`.
- Counting.Judge reads a missing `current_count` as 0, as the source does. Python's arbitrary-precision `int()` is modelled by unbounded naturals.
