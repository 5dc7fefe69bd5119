/**
 * The clan record the recruitment flow, the clan dashboard and the admin commands
 * share, the `clans` collection keyed by clan tag, and the capital-hall rule both
 * the recruitment flow and the dashboard apply to the game API's clan details.
 */
module Clans {
  import opened Wrappers
  import opened Text
  import opened GameApi

  /** A stored clan document. Fields a document may lack are `Option`s; `leaderId` and
      `leadershipRoleId` are the integer values of the stored id strings. */
  datatype Clan = Clan(
    name: string,
    tag: string,
    clanType: string,
    minTh: int,
    link: string,
    logoUrl: string,
    leaderId: Option<int>,
    leadershipRoleId: Option<int>,
    warLeague: Option<string>,
    capitalHall: Option<string>,
    visible: Option<bool>)

  /** `clan.get('visible', True)`. */
  predicate IsVisible(c: Clan) {
    c.visible.GetOr(true)
  }

  /** `next((c for c in clans if c['clan_tag'] == tag), None)`: the first clan listed with
      that tag, None when no clan has it. */
  function FindByTag(clans: seq<Clan>, tag: string): (found: Option<Clan>)
    ensures found.None? <==> forall i :: 0 <= i < |clans| ==> clans[i].tag != tag
    ensures found.Some? ==>
      (exists i :: 0 <= i < |clans| && clans[i] == found.value && clans[i].tag == tag
                   && forall j :: 0 <= j < i ==> clans[j].tag != tag)
  {
    if clans == [] then None
    else if clans[0].tag == tag then Some(clans[0])
    else
      var r := FindByTag(clans[1..], tag);
      if r.Some? then
        var i :| 0 <= i < |clans| - 1 && clans[1..][i] == r.value && clans[1..][i].tag == tag
          && forall j :: 0 <= j < i ==> clans[1..][j].tag != tag;
        assert clans[i + 1] == r.value && forall j :: 0 <= j < i + 1 ==> clans[j].tag != tag;
        r
      else
        assert forall i :: 1 <= i < |clans| ==> clans[i] == clans[1..][i - 1];
        r
  }

  const CapitalPeak: string := "Capital Peak"
  const NotAvailable: string := "N/A"
  const Unranked: string := "Unranked"

  /** `i` is the first district named Capital Peak. */
  predicate IsFirstPeak(ds: seq<District>, i: int) {
    && 0 <= i < |ds|
    && ds[i].name == CapitalPeak
    && forall j :: 0 <= j < i ==> ds[j].name != CapitalPeak
  }

  /** The war league shown for a clan: its league's name, or "Unranked" when it has none. */
  function WarLeagueName(details: ClanDetails): (league: string)
    ensures details.warLeague.Some? ==> league == details.warLeague.value
    ensures details.warLeague.None? ==> league == Unranked
  {
    details.warLeague.GetOr(Unranked)
  }

  /**
   * `hall` is the capital hall level recorded for a clan: the API's own capital hall level
   * when it has one; otherwise the hall level of the first "Capital Peak" district, else that
   * of the first district; "N/A" when there are no districts or no district attribute at all.
   */
  ghost predicate IsCapitalHallOf(details: ClanDetails, hall: string) {
    if details.capitalHallLevel.Some? then hall == NatToString(details.capitalHallLevel.value)
    else if details.capitalDistricts.None? then hall == NotAvailable
    else
      var ds := details.capitalDistricts.value;
      if exists i :: 0 <= i < |ds| && ds[i].name == CapitalPeak then
        exists i :: IsFirstPeak(ds, i) && hall == NatToString(ds[i].hallLevel)
      else if ds != [] then hall == NatToString(ds[0].hallLevel)
      else hall == NotAvailable
  }

  /** The rule names exactly one value: the first peak is unique. */
  lemma CapitalHallUnique(details: ClanDetails, h1: string, h2: string)
    requires IsCapitalHallOf(details, h1) && IsCapitalHallOf(details, h2)
    ensures h1 == h2
  {
    if details.capitalHallLevel.None? && details.capitalDistricts.Some? {
      var ds := details.capitalDistricts.value;
      if exists i :: 0 <= i < |ds| && ds[i].name == CapitalPeak {
        var i :| IsFirstPeak(ds, i) && h1 == NatToString(ds[i].hallLevel);
        var j :| IsFirstPeak(ds, j) && h2 == NatToString(ds[j].hallLevel);
        assert i == j;
      }
    }
  }

  /** The capital-hall search over the API's clan details, scanning the districts for the
      first Capital Peak. */
  method CapitalHall(details: ClanDetails) returns (hall: string)
    ensures IsCapitalHallOf(details, hall)
  {
    if details.capitalHallLevel.Some? {
      hall := NatToString(details.capitalHallLevel.value);
    } else if details.capitalDistricts.Some? {
      var ds := details.capitalDistricts.value;
      hall := NotAvailable;
      if |ds| > 0 {
        var k := 0;
        while k < |ds|
          invariant 0 <= k <= |ds|
          invariant forall j :: 0 <= j < k ==> ds[j].name != CapitalPeak
          invariant hall == NotAvailable
        {
          if ds[k].name == CapitalPeak {
            hall := NatToString(ds[k].hallLevel);
            assert IsFirstPeak(ds, k);
            assert hall[0] != NotAvailable[0];
            break;
          }
          k := k + 1;
        }
        if hall == NotAvailable && |ds| > 0 {
          hall := NatToString(ds[0].hallLevel);
        }
      }
    } else {
      hall := NotAvailable;
    }
  }

  /** One `update_clan_field(tag, field, value)` call: the field and its new value. */
  datatype FieldUpdate =
    | SetName(name: string)
    | SetClanType(clanType: string)
    | SetMinTh(minTh: int)
    | SetLink(link: string)
    | SetLogoUrl(logoUrl: string)
    | SetLeaderId(leaderId: int)
    | SetLeadershipRoleId(roleId: int)
    | SetWarLeague(warLeague: string)
    | SetCapitalHall(capitalHall: string)
    | SetVisible(visible: bool)

  /** The document after `$set` of one field. */
  function WithField(c: Clan, u: FieldUpdate): Clan {
    match u
    case SetName(v) => c.(name := v)
    case SetClanType(v) => c.(clanType := v)
    case SetMinTh(v) => c.(minTh := v)
    case SetLink(v) => c.(link := v)
    case SetLogoUrl(v) => c.(logoUrl := v)
    case SetLeaderId(v) => c.(leaderId := Some(v))
    case SetLeadershipRoleId(v) => c.(leadershipRoleId := Some(v))
    case SetWarLeague(v) => c.(warLeague := Some(v))
    case SetCapitalHall(v) => c.(capitalHall := Some(v))
    case SetVisible(v) => c.(visible := Some(v))
  }

  /** `$set` of `c` over the stored document `stored`: every field `c` carries replaces the
      stored one, and a field `c` lacks keeps its stored value. */
  function Merged(stored: Clan, c: Clan): Clan {
    c.(leaderId := if c.leaderId.Some? then c.leaderId else stored.leaderId,
       leadershipRoleId := if c.leadershipRoleId.Some? then c.leadershipRoleId else stored.leadershipRoleId,
       warLeague := if c.warLeague.Some? then c.warLeague else stored.warLeague,
       capitalHall := if c.capitalHall.Some? then c.capitalHall else stored.capitalHall,
       visible := if c.visible.Some? then c.visible else stored.visible)
  }

  /** Saving the same document twice is saving it once. */
  lemma MergedIdempotent(stored: Clan, c: Clan)
    ensures Merged(Merged(stored, c), c) == Merged(stored, c)
  {
  }

  /** A document that carries every field replaces the stored one outright. */
  lemma MergedComplete(stored: Clan, c: Clan)
    requires c.leaderId.Some? && c.leadershipRoleId.Some? && c.warLeague.Some?
    requires c.capitalHall.Some? && c.visible.Some?
    ensures Merged(stored, c) == c
  {
  }

  /** The `clans` collection, one document per clan tag. */
  class ClanStore {
    var clans: map<string, Clan>

    /** Every document sits under its own tag. */
    ghost predicate Valid()
      reads this
    {
      forall t :: t in clans ==> clans[t].tag == t
    }

    constructor ()
      ensures Valid() && clans == map[]
    {
      clans := map[];
    }

    /** `save_clan`: `$set` upsert under the document's tag. A new tag gets the document as
        it is; a known tag keeps every stored field the new document lacks. */
    method Save(c: Clan)
      requires Valid()
      modifies this
      ensures Valid()
      ensures clans == old(clans)[c.tag := if c.tag in old(clans) then Merged(old(clans)[c.tag], c) else c]
    {
      if c.tag in clans {
        clans := clans[c.tag := Merged(clans[c.tag], c)];
      } else {
        clans := clans[c.tag := c];
      }
    }

    /** `update_clan_field`: sets one field of the document with that tag; no document is
        created when the tag is unknown. */
    method UpdateField(tag: string, u: FieldUpdate)
      requires Valid()
      modifies this
      ensures Valid()
      ensures tag in old(clans) ==> clans == old(clans)[tag := WithField(old(clans)[tag], u)]
      ensures tag !in old(clans) ==> clans == old(clans)
    {
      if tag in clans {
        clans := clans[tag := WithField(clans[tag], u)];
      }
    }
  }
}
