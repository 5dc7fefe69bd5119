/**
 * The admin commands' clan lookups: the invite command finds a stored clan by the tag typed
 * in, and the autocomplete of that argument offers the stored clans whose name or tag
 * contains what has been typed so far, ignoring case.
 */
module AdminCommands {
  import opened Wrappers
  import opened Text
  import opened Clans

  /** The invite command's lookup: the first stored clan whose tag is the input upper-cased;
      None sends the not-found reply. */
  function InviteLookup(clans: seq<Clan>, input: string): (found: Option<Clan>)
    ensures found.None? <==> forall i :: 0 <= i < |clans| ==> clans[i].tag != Upper(input)
    ensures found.Some? ==> found.value.tag == Upper(input) && found.value in clans
  {
    FindByTag(clans, Upper(input))
  }

  lemma CaseCharRoundTrip(c: char)
    ensures UpperChar(LowerChar(c)) == UpperChar(c)
    ensures LowerChar(UpperChar(c)) == LowerChar(c)
  {
  }

  lemma UpperOfLower(s: string)
    ensures Upper(Lower(s)) == Upper(s)
  {
    forall i | 0 <= i < |s|
      ensures Upper(Lower(s))[i] == Upper(s)[i]
    {
      CaseCharRoundTrip(s[i]);
    }
  }

  lemma LowerOfUpper(s: string)
    ensures Lower(Upper(s)) == Lower(s)
  {
    forall i | 0 <= i < |s|
      ensures Lower(Upper(s))[i] == Lower(s)[i]
    {
      CaseCharRoundTrip(s[i]);
    }
  }

  /** The lookup ignores the case the tag is typed in. */
  lemma InviteLookupIgnoresCase(clans: seq<Clan>, input: string)
    ensures InviteLookup(clans, Lower(input)) == InviteLookup(clans, input)
  {
    UpperOfLower(input);
  }

  /** A stored tag holding a lower-case letter is never found, whatever is typed. */
  lemma InviteLookupMissesLowerCaseTags(clans: seq<Clan>, input: string, i: nat)
    requires i < |clans| && exists j :: 0 <= j < |clans[i].tag| && 'a' <= clans[i].tag[j] <= 'z'
    ensures InviteLookup(clans, input) != Some(clans[i])
  {
    var j :| 0 <= j < |clans[i].tag| && 'a' <= clans[i].tag[j] <= 'z';
    assert |Upper(input)| != |clans[i].tag| || Upper(input)[j] != clans[i].tag[j];
  }

  /** One autocomplete choice: shown as the clan's name, submitted as its tag. */
  datatype Choice = Choice(name: string, value: string)

  /** At most this many choices are offered. */
  const MaxChoices: nat := 25

  /** The clan's name or tag contains the typed text, both lower-cased. */
  predicate Matches(c: Clan, current: string) {
    IsSubstring(Lower(current), Lower(c.name)) || IsSubstring(Lower(current), Lower(c.tag))
  }

  /** The stored clans that match, in stored order. */
  function Matching(clans: seq<Clan>, current: string): (ms: seq<Clan>)
    ensures |ms| <= |clans|
    ensures forall k :: 0 <= k < |ms| ==> ms[k] in clans && Matches(ms[k], current)
    ensures forall i :: 0 <= i < |clans| && Matches(clans[i], current) ==> clans[i] in ms
    decreases |clans|
  {
    if clans == [] then []
    else
      var rest := Matching(clans[1..], current);
      assert forall i :: 1 <= i < |clans| ==> clans[i] == clans[1..][i - 1];
      (if Matches(clans[0], current) then [clans[0]] else []) + rest
  }

  /** Matching keeps the stored order: the matches of a concatenation are the matches of
      each part, one after the other. */
  lemma {:induction false} MatchingAppend(a: seq<Clan>, b: seq<Clan>, current: string)
    ensures Matching(a + b, current) == Matching(a, current) + Matching(b, current)
    decreases |a|
  {
    if a == [] {
      assert a + b == b;
    } else {
      assert (a + b)[0] == a[0] && (a + b)[1..] == a[1..] + b;
      MatchingAppend(a[1..], b, current);
    }
  }

  /** A single clan is kept exactly when it matches. */
  lemma MatchingOne(c: Clan, current: string)
    ensures Matching([c], current) == if Matches(c, current) then [c] else []
  {
    assert [c][1..] == [];
  }

  /** The autocomplete of the invite command's tag argument. */
  function Autocomplete(clans: seq<Clan>, current: string): (choices: seq<Choice>)
    ensures |choices| <= MaxChoices
  {
    var ms := Matching(clans, current);
    var n := if |ms| < MaxChoices then |ms| else MaxChoices;
    seq(n, k requires 0 <= k < n => Choice(ms[k].name, ms[k].tag))
  }

  /** The choices are the first matching clans in stored order, as many as fit, each named by
      the clan's name with its tag as value; when no more than the maximum match, every
      matching clan is offered. */
  lemma AutocompleteShape(clans: seq<Clan>, current: string)
    ensures var ms := Matching(clans, current); var cs := Autocomplete(clans, current);
      && |cs| == (if |ms| < MaxChoices then |ms| else MaxChoices)
      && (forall k :: 0 <= k < |cs| ==> cs[k] == Choice(ms[k].name, ms[k].tag))
      && (|ms| <= MaxChoices ==> |cs| == |ms|)
  {
  }

  /** Every offered choice is a stored clan whose name or tag contains the typed text,
      ignoring case. */
  lemma AutocompleteSound(clans: seq<Clan>, current: string, k: nat)
    requires k < |Autocomplete(clans, current)|
    ensures exists i :: (0 <= i < |clans| && Matches(clans[i], current)
                         && Autocomplete(clans, current)[k] == Choice(clans[i].name, clans[i].tag))
  {
    var ms := Matching(clans, current);
    assert ms[k] in clans;
    var i :| 0 <= i < |clans| && clans[i] == ms[k];
    assert Autocomplete(clans, current)[k] == Choice(clans[i].name, clans[i].tag);
  }

  lemma IsSubstringEmpty(hay: string)
    ensures IsSubstring("", hay)
  {
    assert hay[..0] == "";
  }

  /** Before anything is typed, every clan matches and the first clans are offered. */
  lemma AutocompleteEmptyInput(clans: seq<Clan>)
    ensures Matching(clans, "") == clans
  {
    forall i | 0 <= i < |clans|
      ensures Matches(clans[i], "")
    {
      IsSubstringEmpty(Lower(clans[i].name));
    }
    MatchingAllMatch(clans, "");
  }

  lemma {:induction false} MatchingAllMatch(clans: seq<Clan>, current: string)
    requires forall i :: 0 <= i < |clans| ==> Matches(clans[i], current)
    ensures Matching(clans, current) == clans
    decreases |clans|
  {
    if clans != [] {
      MatchingAllMatch(clans[1..], current);
    }
  }

  /** The typed text's case does not change the choices. */
  lemma AutocompleteIgnoresCase(clans: seq<Clan>, current: string)
    ensures Autocomplete(clans, Upper(current)) == Autocomplete(clans, current)
  {
    LowerOfUpper(current);
    MatchingSameLower(clans, Upper(current), current);
  }

  lemma {:induction false} MatchingSameLower(clans: seq<Clan>, x: string, y: string)
    requires Lower(x) == Lower(y)
    ensures Matching(clans, x) == Matching(clans, y)
    decreases |clans|
  {
    if clans != [] {
      MatchingSameLower(clans[1..], x, y);
    }
  }
}
