/** The toolbar popup of the grouped registry (popup/js/popup.js): which
    entry the active tab belongs to, which entries the drop-down offers,
    and what "Switch" and "Compare" do with the selected name. */
module Popup {
  import opened Common
  import opened JsString
  import opened Environment
  import opened Url
  import opened EnvType
  import opened Groups

  // ---------------------------------------------------------------------
  // Current environment
  // ---------------------------------------------------------------------

  /** The test `getCurrentEnvironment` applies to one entry, given the
      active tab's url and its host name without a leading `www.`: the
      entry needs a url; when that url parses, the host names (without
      `www.`) must agree, or the entry url with a forced trailing `/` must
      be a case-insensitive prefix of the tab url; when it throws, the
      entry url must be a plain case-insensitive prefix. */
  predicate PopupMatches(currentUrl: string, currentHost: string, e: Env, parse: Parser)
  {
    && e.url != ""
    && match parse(e.url)
       case Some(u) =>
         currentHost == StripWww(u.hostname)
         || StartsWith(Lower(currentUrl), WithTrailingSlash(Lower(e.url)))
       case None =>
         StartsWith(Lower(currentUrl), Lower(e.url))
  }

  function MatchesTab(currentUrl: string, currentHost: string, parse: Parser): Env -> bool
  {
    (e: Env) => PopupMatches(currentUrl, currentHost, e, parse)
  }

  /** `getCurrentEnvironment`: nothing without a tab url or when the tab
      url does not parse; otherwise the first matching entry. */
  function GetCurrentEnvironment(tabUrl: string, envs: seq<Env>, parse: Parser): (r: Option<Env>)
    ensures tabUrl == "" || parse(tabUrl).None? ==> r.None?
    ensures tabUrl != "" && parse(tabUrl).Some? ==>
              var host := StripWww(parse(tabUrl).value.hostname);
              && (r.None? <==> forall i :: 0 <= i < |envs| ==> !PopupMatches(tabUrl, host, envs[i], parse))
              && (r.Some? ==>
                    exists k :: 0 <= k < |envs| && envs[k] == r.value
                      && PopupMatches(tabUrl, host, envs[k], parse)
                      && forall i :: 0 <= i < k ==> !PopupMatches(tabUrl, host, envs[i], parse))
    ensures r.Some? ==> r.value in envs && r.value.url != ""
  {
    if tabUrl == "" then None
    else
      match parse(tabUrl)
      case None => None
      case Some(c) => Find(envs, MatchesTab(tabUrl, StripWww(c.hostname), parse))
  }

  /** An entry whose url parses onto the tab's host (ignoring a leading
      `www.` on either side) is recognised, whatever the path. */
  lemma SameHostMatches(tabUrl: string, e: Env, parse: Parser)
    requires e.url != "" && parse(tabUrl).Some? && parse(e.url).Some?
    requires StripWww(parse(tabUrl).value.hostname) == StripWww(parse(e.url).value.hostname)
    ensures PopupMatches(tabUrl, StripWww(parse(tabUrl).value.hostname), e, parse)
  {
  }

  /** Only the first entry of the registry that matches counts: an entry
      listed after a matching one is never the current environment. */
  lemma FirstMatchWins(tabUrl: string, envs: seq<Env>, parse: Parser, j: nat)
    requires tabUrl != "" && parse(tabUrl).Some?
    requires j < |envs| && PopupMatches(tabUrl, StripWww(parse(tabUrl).value.hostname), envs[j], parse)
    ensures GetCurrentEnvironment(tabUrl, envs, parse).Some?
    ensures GetCurrentEnvironment(tabUrl, envs, parse) == Some(envs[FirstIndex(envs, MatchesTab(tabUrl, StripWww(parse(tabUrl).value.hostname), parse)).value])
  {
  }

  // ---------------------------------------------------------------------
  // Drop-down
  // ---------------------------------------------------------------------

  /** The first filter of `updateEnvironmentList`: a named entry, not named
      like the current one, whose normalised group equals the current
      one's (two ungrouped entries being in the same group). */
  predicate SameGroupOther(cur: Env, e: Env)
  {
    e.name != "" && e.name != cur.name && NormalizeGroup(e.group) == NormalizeGroup(cur.group)
  }

  /** The second filter: both urls parse and the origins differ; an entry
      whose origin cannot be compared is dropped. */
  predicate DifferentOrigin(cur: Env, e: Env, parse: Parser)
  {
    match (parse(cur.url), parse(e.url))
    case (Some(a), Some(b)) => a.origin != b.origin
    case _ => false
  }

  predicate IsDropdownEntry(cur: Env, e: Env, parse: Parser)
  {
    SameGroupOther(cur, e) && DifferentOrigin(cur, e, parse)
  }

  function SameGroupOtherThan(cur: Env): Env -> bool
  {
    (e: Env) => SameGroupOther(cur, e)
  }

  function DifferentOriginThan(cur: Env, parse: Parser): Env -> bool
  {
    (e: Env) => DifferentOrigin(cur, e, parse)
  }

  function DropdownEntryOf(cur: Env, parse: Parser): Env -> bool
  {
    (e: Env) => IsDropdownEntry(cur, e, parse)
  }

  /** `sameGroupEnvs.filter(...)` after `environments.filter(...)`: the
      entries offered in the drop-down, in registry order. The two filters
      are one filter by `IsDropdownEntry`. */
  function Dropdown(envs: seq<Env>, cur: Env, parse: Parser): (r: seq<Env>)
    ensures r == Filter(envs, DropdownEntryOf(cur, parse))
  {
    FilterFilter(envs, SameGroupOtherThan(cur), DifferentOriginThan(cur, parse));
    FilterCongruent(envs, And(SameGroupOtherThan(cur), DifferentOriginThan(cur, parse)),
                    DropdownEntryOf(cur, parse));
    Filter(Filter(envs, SameGroupOtherThan(cur)), DifferentOriginThan(cur, parse))
  }

  /** The drop-down lists, in registry order, exactly the named entries of
      the current entry's group that are named differently and live on
      another origin. */
  lemma DropdownContents(envs: seq<Env>, cur: Env, parse: Parser, e: Env)
    ensures IsSublist(Dropdown(envs, cur, parse), envs)
    ensures e in Dropdown(envs, cur, parse) <==> e in envs && IsDropdownEntry(cur, e, parse)
  {
    FilterSublist(envs, DropdownEntryOf(cur, parse));
    FilterMembership(envs, DropdownEntryOf(cur, parse), e);
  }

  /** Every listed entry passes `areInSameGroup` with the current entry,
      and none shares its name or origin. */
  lemma DropdownEntriesAreGroupMates(envs: seq<Env>, cur: Env, parse: Parser, e: Env)
    requires e in Dropdown(envs, cur, parse)
    ensures SameGroup(Some(cur), Some(e))
    ensures e.name != "" && e.name != cur.name
    ensures parse(cur.url).Some? && parse(e.url).Some?
    ensures parse(cur.url).value.origin != parse(e.url).value.origin
  {
    DropdownContents(envs, cur, parse, e);
    SameGroupReference(cur, e);
  }

  /** When the current entry's own url does not parse (it was matched by
      the plain prefix fallback), the drop-down is empty. */
  lemma UnparsableCurrentEmptiesDropdown(envs: seq<Env>, cur: Env, parse: Parser)
    requires parse(cur.url).None?
    ensures Dropdown(envs, cur, parse) == []
  {
    FilterNone(envs, DropdownEntryOf(cur, parse));
  }

  // ---------------------------------------------------------------------
  // Switch and compare
  // ---------------------------------------------------------------------

  /** The lookup of the selected name in `switchEnvironment` and
      `compareEnvironments`: the first named entry with that name in the
      current entry's normalised group. */
  predicate IsTarget(selected: string, cur: Env, e: Env)
  {
    e.name != "" && e.name == selected && NormalizeGroup(e.group) == NormalizeGroup(cur.group)
  }

  function TargetOf(selected: string, cur: Env): Env -> bool
  {
    (e: Env) => IsTarget(selected, cur, e)
  }

  function FindTarget(envs: seq<Env>, selected: string, cur: Env): (r: Option<Env>)
    ensures r.None? <==> forall i :: 0 <= i < |envs| ==> !IsTarget(selected, cur, envs[i])
    ensures r.Some? ==> r.value in envs && r.value.name == selected && selected != ""
    ensures r.Some? ==> SameGroup(Some(cur), Some(r.value))
    ensures r.Some? ==> exists k :: 0 <= k < |envs| && envs[k] == r.value && IsTarget(selected, cur, envs[k])
                          && forall j :: 0 <= j < k ==> !IsTarget(selected, cur, envs[j])
  {
    match Find(envs, TargetOf(selected, cur))
    case None => None
    case Some(t) =>
      SameGroupReference(cur, t);
      Some(t)
  }

  /** Every name the drop-down offers is found again by the lookup, in the
      current group (possibly as an earlier entry of the same name). */
  lemma ListedNameIsFound(envs: seq<Env>, cur: Env, parse: Parser, e: Env)
    requires e in Dropdown(envs, cur, parse)
    ensures FindTarget(envs, e.name, cur).Some?
    ensures FindTarget(envs, e.name, cur).value.name == e.name
  {
    DropdownContents(envs, cur, parse, e);
    var k :| 0 <= k < |envs| && envs[k] == e;
    assert IsTarget(e.name, cur, envs[k]);
  }

  /** Why switching or comparing stops early (an alert or a logged error). */
  datatype PopupError = NothingSelected | NoCurrentEnvironment | TargetNotInGroup | InvalidUrls

  /** Where `executeSwitch` sends the browser: the target's url, in a new
      tab or in the active one. */
  datatype Navigation = Navigation(url: string, newTab: bool)

  /** `switchEnvironment` followed by `executeSwitch`. */
  function SwitchEnvironment(tabUrl: string, envs: seq<Env>, selected: string, openInNewTab: bool,
                             parse: Parser): (r: Result<Navigation, PopupError>)
    ensures selected == "" <==> r == Err(NothingSelected)
    ensures r == Err(NoCurrentEnvironment) <==>
              selected != "" && GetCurrentEnvironment(tabUrl, envs, parse).None?
    ensures r == Err(TargetNotInGroup) <==>
              selected != "" && GetCurrentEnvironment(tabUrl, envs, parse).Some?
              && FindTarget(envs, selected, GetCurrentEnvironment(tabUrl, envs, parse).value).None?
    ensures r != Err(InvalidUrls)
    ensures r.Ok? ==>
              var t := FindTarget(envs, selected, GetCurrentEnvironment(tabUrl, envs, parse).value).value;
              && r.value == Navigation(t.url, openInNewTab)
              && t in envs && t.name == selected
              && SameGroup(GetCurrentEnvironment(tabUrl, envs, parse), Some(t))
  {
    if selected == "" then Err(NothingSelected)
    else
      match GetCurrentEnvironment(tabUrl, envs, parse)
      case None => Err(NoCurrentEnvironment)
      case Some(cur) =>
        match FindTarget(envs, selected, cur)
        case None => Err(TargetNotInGroup)
        case Some(t) => Ok(Navigation(t.url, openInNewTab))
  }

  /** Picking any entry of the drop-down and pressing "Switch" navigates to
      the first entry of the current group carrying that name. */
  lemma SwitchToListedEntry(tabUrl: string, envs: seq<Env>, parse: Parser, e: Env, openInNewTab: bool)
    requires GetCurrentEnvironment(tabUrl, envs, parse).Some?
    requires e in Dropdown(envs, GetCurrentEnvironment(tabUrl, envs, parse).value, parse)
    ensures FindTarget(envs, e.name, GetCurrentEnvironment(tabUrl, envs, parse).value).Some?
    ensures SwitchEnvironment(tabUrl, envs, e.name, openInNewTab, parse)
            == Ok(Navigation(FindTarget(envs, e.name, GetCurrentEnvironment(tabUrl, envs, parse).value).value.url,
                             openInNewTab))
  {
    ListedNameIsFound(envs, GetCurrentEnvironment(tabUrl, envs, parse).value, parse, e);
  }

  /** One side of the stored `comparisonData`. */
  datatype ComparisonEntry = ComparisonEntry(name: string, url: string, envType: string)

  datatype ComparisonData = ComparisonData(env1: ComparisonEntry, env2: ComparisonEntry)

  /** `{name, url, type: env.type || getEnvironmentType(env)}`. */
  function EntryOf(e: Env): (r: ComparisonEntry)
    ensures r.name == e.name && r.url == e.url
    ensures e.envType != "" ==> r.envType == e.envType
    ensures e.envType == "" && e.name != "" ==> IsKnownType(r.envType)
  {
    ComparisonEntry(e.name, e.url, if e.envType != "" then e.envType else PopupType(e))
  }

  /** The `||` in front of `getEnvironmentType` is redundant: that function
      already returns a truthy `type` unchanged. */
  lemma EntryTypeIsPopupType(e: Env)
    ensures EntryOf(e).envType == PopupType(e)
  {
  }

  /** `compareEnvironments` up to storing the data: the current entry,
      then the selection, then its lookup (which must have a url), then a
      last check that both urls are present. */
  function CompareEnvironments(tabUrl: string, envs: seq<Env>, selected: string, parse: Parser)
    : (r: Result<ComparisonData, PopupError>)
    ensures r == Err(NoCurrentEnvironment) <==> GetCurrentEnvironment(tabUrl, envs, parse).None?
    ensures r == Err(NothingSelected) <==> GetCurrentEnvironment(tabUrl, envs, parse).Some? && selected == ""
    ensures r == Err(TargetNotInGroup) <==>
              && GetCurrentEnvironment(tabUrl, envs, parse).Some? && selected != ""
              && var found := FindTarget(envs, selected, GetCurrentEnvironment(tabUrl, envs, parse).value);
                 found.None? || found.value.url == ""
    ensures r.Ok? ==>
              var cur := GetCurrentEnvironment(tabUrl, envs, parse).value;
              var t := FindTarget(envs, selected, cur).value;
              && r.value.env1 == EntryOf(cur)
              && r.value.env2 == EntryOf(t)
              && IsTarget(selected, cur, t) && t.url != ""
  {
    match GetCurrentEnvironment(tabUrl, envs, parse)
    case None => Err(NoCurrentEnvironment)
    case Some(cur) =>
      if cur.url == "" then Err(NoCurrentEnvironment)
      else if selected == "" then Err(NothingSelected)
      else
        match FindTarget(envs, selected, cur)
        case None => Err(TargetNotInGroup)
        case Some(t) =>
          if t.url == "" then Err(TargetNotInGroup)
          else
            var data := ComparisonData(EntryOf(cur), EntryOf(t));
            if data.env1.url == "" || data.env2.url == "" then Err(InvalidUrls)
            else Ok(data)
  }

  /** The final url validation never fires: both urls were checked before. */
  lemma CompareNeverInvalidUrls(tabUrl: string, envs: seq<Env>, selected: string, parse: Parser)
    ensures CompareEnvironments(tabUrl, envs, selected, parse) != Err(InvalidUrls)
    ensures CompareEnvironments(tabUrl, envs, selected, parse).Ok? ==>
              CompareEnvironments(tabUrl, envs, selected, parse).value.env1.url != ""
              && CompareEnvironments(tabUrl, envs, selected, parse).value.env2.url != ""
  {
  }

  /** Comparing with an entry picked from the drop-down succeeds whenever
      the entry found under that name has a url. */
  lemma CompareWithListedEntry(tabUrl: string, envs: seq<Env>, parse: Parser, e: Env)
    requires GetCurrentEnvironment(tabUrl, envs, parse).Some?
    requires e in Dropdown(envs, GetCurrentEnvironment(tabUrl, envs, parse).value, parse)
    requires FindTarget(envs, e.name, GetCurrentEnvironment(tabUrl, envs, parse).value).Some? ==>
               FindTarget(envs, e.name, GetCurrentEnvironment(tabUrl, envs, parse).value).value.url != ""
    ensures CompareEnvironments(tabUrl, envs, e.name, parse).Ok?
  {
    ListedNameIsFound(envs, GetCurrentEnvironment(tabUrl, envs, parse).value, parse, e);
  }
}
