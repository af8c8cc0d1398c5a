/** The base-url variant of the popup and its management page
    (popup/popup.js, popup/manage.js). Entries are `{name, baseUrl}`
    pairs; switching and comparing keep the page path and swap the base. */
module BaseUrlPopup {
  import opened Common
  import opened JsString
  import opened Url

  /** A stored `{name, baseUrl}` entry. */
  datatype BaseEnv = BaseEnv(name: string, baseUrl: string)

  // ---------------------------------------------------------------------
  // Current entry and the select options
  // ---------------------------------------------------------------------

  /** How the look-up of the current entry ends: with an entry, with none,
      or with `new URL` throwing on a stored base url, which aborts the
      whole initialisation of the popup. */
  datatype Lookup = Found(env: BaseEnv) | NotFound | Threw

  /** The stored base url, without one trailing slash, parses. */
  predicate Parses(e: BaseEnv, parse: Parser)
  {
    parse(StripTrailingSlash(e.baseUrl)).Some?
  }

  /** The test of the display look-up on one entry that parses. */
  predicate OnOrigin(currentOrigin: string, e: BaseEnv, parse: Parser)
    requires Parses(e, parse)
  {
    parse(StripTrailingSlash(e.baseUrl)).value.origin == currentOrigin
  }

  /** An entry at which the look-up stops: it throws or it matches. */
  predicate Decides(currentOrigin: string, e: BaseEnv, parse: Parser)
  {
    !Parses(e, parse) || OnOrigin(currentOrigin, e, parse)
  }

  function DecidesOf(currentOrigin: string, parse: Parser): BaseEnv -> bool
  {
    (e: BaseEnv) => Decides(currentOrigin, e, parse)
  }

  /** `environments.find(env => new URL(env.baseUrl.replace(/\/$/, '')).origin
      === currentUrlObj.origin)`: entries are tried in order; an entry whose
      base url does not parse throws before any later entry is tried. */
  function DisplayCurrent(currentOrigin: string, envs: seq<BaseEnv>, parse: Parser): (r: Lookup)
    ensures r.NotFound? <==> forall i :: 0 <= i < |envs| ==> !Decides(currentOrigin, envs[i], parse)
    ensures r.Found? ==>
              exists k :: 0 <= k < |envs| && envs[k] == r.env
                && Parses(envs[k], parse) && OnOrigin(currentOrigin, envs[k], parse)
                && forall i :: 0 <= i < k ==> !Decides(currentOrigin, envs[i], parse)
    ensures r.Threw? ==>
              exists k :: 0 <= k < |envs| && !Parses(envs[k], parse)
                && forall i :: 0 <= i < k ==> !Decides(currentOrigin, envs[i], parse)
  {
    match FirstIndex(envs, DecidesOf(currentOrigin, parse))
    case None => NotFound
    case Some(k) => if Parses(envs[k], parse) then Found(envs[k]) else Threw
  }

  function OnOriginOf(currentOrigin: string, parse: Parser): BaseEnv -> bool
  {
    (e: BaseEnv) => Parses(e, parse) && OnOrigin(currentOrigin, e, parse)
  }

  /** With every stored base url parsable, the look-up is a plain `find`
      by origin and never throws. */
  lemma {:induction false} DisplayCurrentWhenAllParse(currentOrigin: string, envs: seq<BaseEnv>, parse: Parser)
    requires forall i :: 0 <= i < |envs| ==> Parses(envs[i], parse)
    ensures !DisplayCurrent(currentOrigin, envs, parse).Threw?
    ensures DisplayCurrent(currentOrigin, envs, parse).Found? <==> Find(envs, OnOriginOf(currentOrigin, parse)).Some?
    ensures DisplayCurrent(currentOrigin, envs, parse).Found? ==>
              DisplayCurrent(currentOrigin, envs, parse).env == Find(envs, OnOriginOf(currentOrigin, parse)).value
  {
    FindCongruent(envs, DecidesOf(currentOrigin, parse), OnOriginOf(currentOrigin, parse));
  }

  /** `env.baseUrl === currentUrlObj.origin`, the test that disables an
      option: the stored base url itself, not stripped and not parsed. */
  predicate IsCurrentOption(currentOrigin: string, e: BaseEnv)
  {
    e.baseUrl == currentOrigin
  }

  /** One `<option>` of the select: value, text, disabled flag. */
  datatype SelectOption = SelectOption(value: string, text: string, disabled: bool)

  /** The options of the environment select, one per entry in order. */
  function Options(currentOrigin: string, envs: seq<BaseEnv>): (r: seq<SelectOption>)
    ensures |r| == |envs|
    ensures forall i :: 0 <= i < |r| ==>
              r[i].value == envs[i].baseUrl && r[i].text == envs[i].name
              && (r[i].disabled <==> IsCurrentOption(currentOrigin, envs[i]))
  {
    if |envs| == 0 then []
    else [SelectOption(envs[0].baseUrl, envs[0].name, envs[0].baseUrl == currentOrigin)]
         + Options(currentOrigin, envs[1..])
  }

  /** A disabled option whose base url is a bare origin (it parses to
      itself and has no trailing slash) belongs to an entry the display
      look-up recognises as current. */
  lemma DisabledOptionIsOnOrigin(currentOrigin: string, e: BaseEnv, parse: Parser)
    requires IsCurrentOption(currentOrigin, e)
    requires Parses(e, parse)
    requires !EndsWith(e.baseUrl, "/")
    requires parse(e.baseUrl).Some? && parse(e.baseUrl).value.origin == e.baseUrl
    ensures OnOrigin(currentOrigin, e, parse)
  {
  }

  /** The two notions of "current" differ: an entry whose base url carries
      a path (or a trailing slash kept by the single-slash strip) is shown
      as the current environment, yet its option stays enabled, so the
      popup offers to switch to the page already open. */
  lemma CurrentEntryOptionEnabled(currentOrigin: string, envs: seq<BaseEnv>, parse: Parser, k: nat)
    requires k < |envs| && Parses(envs[k], parse) && OnOrigin(currentOrigin, envs[k], parse)
    requires envs[k].baseUrl != currentOrigin
    requires forall i :: 0 <= i < k ==> !Decides(currentOrigin, envs[i], parse)
    ensures DisplayCurrent(currentOrigin, envs, parse) == Found(envs[k])
    ensures !Options(currentOrigin, envs)[k].disabled
  {
    assert DecidesOf(currentOrigin, parse)(envs[k]);
    assert FirstIndex(envs, DecidesOf(currentOrigin, parse)) == Some(k);
  }

  // ---------------------------------------------------------------------
  // Switch
  // ---------------------------------------------------------------------

  /** Why a click on "Switch" or "Compare" stops early. */
  datatype BaseError = NothingSelected | EntryNotFound | CurrentNotFound | TabUrlThrew

  function WithBaseUrl(b: string): BaseEnv -> bool
  {
    (e: BaseEnv) => e.baseUrl == b
  }

  /** The switch handler: the selected option's value is a base url; the
      entry with that base url receives the current path, query and
      fragment. */
  function SwitchUrl(tabUrl: string, envs: seq<BaseEnv>, selected: string, parse: Parser)
    : (r: Result<string, BaseError>)
    ensures selected == "" <==> r == Err(NothingSelected)
    ensures r == Err(EntryNotFound) <==>
              selected != "" && forall i :: 0 <= i < |envs| ==> envs[i].baseUrl != selected
    ensures r == Err(TabUrlThrew) <==>
              selected != "" && (exists i :: 0 <= i < |envs| && envs[i].baseUrl == selected)
              && parse(tabUrl).None?
    ensures r != Err(CurrentNotFound)
    ensures r.Ok? ==>
              && parse(tabUrl).Some?
              && var u := parse(tabUrl).value;
              && StartsWith(r.value, selected)
              && r.value[|selected|..] == u.pathname + u.search + u.hash
  {
    if selected == "" then Err(NothingSelected)
    else
      match Find(envs, WithBaseUrl(selected))
      case None => Err(EntryNotFound)
      case Some(env) =>
        match parse(tabUrl)
        case None => Err(TabUrlThrew)
        case Some(u) =>
          var r := env.baseUrl + (u.pathname + u.search + u.hash);
          assert r[..|selected|] == selected;
          Ok(r)
  }

  /** Every non-empty option of the select switches: the browser goes to
      the option's base url followed by the tab's path, query and
      fragment. */
  lemma SwitchToOption(tabUrl: string, currentOrigin: string, envs: seq<BaseEnv>, parse: Parser, i: nat)
    requires i < |Options(currentOrigin, envs)| && Options(currentOrigin, envs)[i].value != ""
    requires parse(tabUrl).Some?
    ensures var u := parse(tabUrl).value;
            SwitchUrl(tabUrl, envs, Options(currentOrigin, envs)[i].value, parse)
            == Ok(Options(currentOrigin, envs)[i].value + (u.pathname + u.search + u.hash))
  {
    var v := Options(currentOrigin, envs)[i].value;
    assert envs[i].baseUrl == v;
    var r := SwitchUrl(tabUrl, envs, v, parse);
    assert r.Ok?;
    var u := parse(tabUrl).value;
    assert r.value == r.value[..|v|] + r.value[|v|..];
  }

  // ---------------------------------------------------------------------
  // Compare
  // ---------------------------------------------------------------------

  function IsPrefixOf(url: string): BaseEnv -> bool
  {
    (e: BaseEnv) => StartsWith(url, e.baseUrl)
  }

  /** `tabUrl.replace(base, '')` for a base the tab url starts with: the
      rest of the url after the base. */
  function PathAfter(tabUrl: string, base: string): (path: string)
    requires StartsWith(tabUrl, base)
    ensures tabUrl == base + path
  {
    ReplaceFirstPrefix(tabUrl, base, "");
    assert tabUrl == base + tabUrl[|base|..];
    ReplaceFirst(tabUrl, base, "")
  }

  /** The query the compare handler puts on `comparison.html`, before
      `encodeURIComponent`. */
  datatype CompareLink = CompareLink(env1: string, env2: string, env1Name: string, env2Name: string)

  /** The compare handler: the current entry is the first whose base url
      is a prefix of the tab url; the path is the tab url with that base
      removed (`replace` of the first occurrence); the second url is the
      selected base without one trailing slash, then that path. */
  function CompareLinkOf(tabUrl: string, envs: seq<BaseEnv>, selected: string): (r: Result<CompareLink, BaseError>)
    ensures selected == "" <==> r == Err(NothingSelected)
    ensures r == Err(CurrentNotFound) <==>
              selected != "" && forall i :: 0 <= i < |envs| ==> !StartsWith(tabUrl, envs[i].baseUrl)
    ensures r.Ok? ==> r.value.env1 == tabUrl
    ensures r.Ok? ==>
              exists k :: 0 <= k < |envs| && StartsWith(tabUrl, envs[k].baseUrl)
                && (forall i :: 0 <= i < k ==> !StartsWith(tabUrl, envs[i].baseUrl))
                && r.value.env1Name == envs[k].name
                && tabUrl == envs[k].baseUrl + tabUrl[|envs[k].baseUrl|..]
                && r.value.env2 == StripTrailingSlash(selected) + tabUrl[|envs[k].baseUrl|..]
    ensures r == Err(EntryNotFound) <==>
              && selected != ""
              && (exists i :: 0 <= i < |envs| && StartsWith(tabUrl, envs[i].baseUrl))
              && forall j :: 0 <= j < |envs| ==> envs[j].baseUrl != selected
    ensures (&& selected != ""
             && (exists i :: 0 <= i < |envs| && StartsWith(tabUrl, envs[i].baseUrl))
             && (exists j :: 0 <= j < |envs| && envs[j].baseUrl == selected)) ==> r.Ok?
    ensures r.Ok? ==>
              exists j :: 0 <= j < |envs| && envs[j].baseUrl == selected
                && (forall i :: 0 <= i < j ==> envs[i].baseUrl != selected)
                && r.value.env2Name == envs[j].name
  {
    if selected == "" then Err(NothingSelected)
    else
      match FirstIndex(envs, IsPrefixOf(tabUrl))
      case None =>
        assert forall i :: 0 <= i < |envs| ==> !IsPrefixOf(tabUrl)(envs[i]);
        Err(CurrentNotFound)
      case Some(k) =>
        assert StartsWith(tabUrl, envs[k].baseUrl);
        assert forall i :: 0 <= i < k ==> !IsPrefixOf(tabUrl)(envs[i]);
        match FirstIndex(envs, WithBaseUrl(selected))
        case None =>
          assert forall j :: 0 <= j < |envs| ==> !WithBaseUrl(selected)(envs[j]);
          Err(EntryNotFound)
        case Some(j) =>
          assert envs[j].baseUrl == selected;
          assert forall i :: 0 <= i < j ==> !WithBaseUrl(selected)(envs[i]);
          var path := PathAfter(tabUrl, envs[k].baseUrl);
          Ok(CompareLink(tabUrl, StripTrailingSlash(selected) + path, envs[k].name, envs[j].name))
  }

  /** Comparing carries the page over: the tab url is the current base
      followed by a path, and the second url is the selected base
      (stored without its trailing slash) followed by the same path. */
  lemma CompareTransplantsPath(tabUrl: string, envs: seq<BaseEnv>, selected: string)
    requires !EndsWith(selected, "/")
    requires CompareLinkOf(tabUrl, envs, selected).Ok?
    ensures exists k, path :: 0 <= k < |envs| && tabUrl == envs[k].baseUrl + path
              && CompareLinkOf(tabUrl, envs, selected).value.env2 == selected + path
  {
    var r := CompareLinkOf(tabUrl, envs, selected).value;
    var k :| 0 <= k < |envs| && StartsWith(tabUrl, envs[k].baseUrl)
      && r.env2 == StripTrailingSlash(selected) + tabUrl[|envs[k].baseUrl|..];
    assert tabUrl == envs[k].baseUrl + tabUrl[|envs[k].baseUrl|..];
  }

  // ---------------------------------------------------------------------
  // Add and delete
  // ---------------------------------------------------------------------

  /** Why the add form is refused. */
  datatype AddError = MissingFields | InvalidUrl

  /** The url as the add form stores it: trimmed, then one trailing slash
      removed. */
  function NormalizeBaseUrl(input: string): (r: string)
    ensures |r| <= |Trim(input)|
  {
    StripTrailingSlash(Trim(input))
  }

  /** The add form: trim the name, normalise the url, refuse an empty
      field or a url that does not parse, else append. */
  function AddBaseEnv(envs: seq<BaseEnv>, nameInput: string, urlInput: string, parse: Parser)
    : (r: Result<seq<BaseEnv>, AddError>)
    ensures r == Err(MissingFields) <==> Trim(nameInput) == "" || NormalizeBaseUrl(urlInput) == ""
    ensures r == Err(InvalidUrl) <==>
              Trim(nameInput) != "" && NormalizeBaseUrl(urlInput) != "" && parse(NormalizeBaseUrl(urlInput)).None?
    ensures r.Ok? ==> |r.value| == |envs| + 1 && r.value[..|envs|] == envs
    ensures r.Ok? ==> r.value[|envs|] == BaseEnv(Trim(nameInput), NormalizeBaseUrl(urlInput))
  {
    var name := Trim(nameInput);
    var baseUrl := NormalizeBaseUrl(urlInput);
    if name == "" || baseUrl == "" then Err(MissingFields)
    else if parse(baseUrl).None? then Err(InvalidUrl)
    else Ok(envs + [BaseEnv(name, baseUrl)])
  }

  /** Exactly one trailing slash goes: a url that ends with `/` after
      trimming is stored without it, so a lone `/` is refused as empty. */
  lemma AddStripsOneSlash(envs: seq<BaseEnv>, nameInput: string, urlInput: string, parse: Parser)
    ensures EndsWith(Trim(urlInput), "/") ==> NormalizeBaseUrl(urlInput) + "/" == Trim(urlInput)
    ensures !EndsWith(Trim(urlInput), "/") ==> NormalizeBaseUrl(urlInput) == Trim(urlInput)
    ensures Trim(urlInput) == "/" ==> AddBaseEnv(envs, nameInput, urlInput, parse) == Err(MissingFields)
  {
  }

  /** `environments.filter(e => e.baseUrl !== env.baseUrl)`. */
  function DeleteByBaseUrl(envs: seq<BaseEnv>, baseUrl: string): (r: seq<BaseEnv>)
    ensures forall i :: 0 <= i < |r| ==> r[i].baseUrl != baseUrl
  {
    Filter(envs, OtherBaseUrl(baseUrl))
  }

  function OtherBaseUrl(b: string): BaseEnv -> bool
  {
    (e: BaseEnv) => e.baseUrl != b
  }

  /** Delete keeps, in order, exactly the entries with another base url,
      each as often as it occurred. */
  lemma DeleteByBaseUrlContents(envs: seq<BaseEnv>, baseUrl: string)
    ensures IsSublist(DeleteByBaseUrl(envs, baseUrl), envs)
    ensures forall e: BaseEnv :: multiset(DeleteByBaseUrl(envs, baseUrl))[e]
              == if e.baseUrl != baseUrl then multiset(envs)[e] else 0
  {
    FilterSublist(envs, OtherBaseUrl(baseUrl));
    FilterCount(envs, OtherBaseUrl(baseUrl));
  }

  /** Deleting a base url right after adding it leaves what deleting it
      from the old list leaves: the new entry is gone with the others. */
  lemma AddThenDeleteBaseUrl(envs: seq<BaseEnv>, nameInput: string, urlInput: string, parse: Parser)
    requires AddBaseEnv(envs, nameInput, urlInput, parse).Ok?
    ensures DeleteByBaseUrl(AddBaseEnv(envs, nameInput, urlInput, parse).value, NormalizeBaseUrl(urlInput))
            == DeleteByBaseUrl(envs, NormalizeBaseUrl(urlInput))
  {
    var e := BaseEnv(Trim(nameInput), NormalizeBaseUrl(urlInput));
    FilterAppend(envs, e, OtherBaseUrl(NormalizeBaseUrl(urlInput)));
  }
  // ---------------------------------------------------------------------
  // The management page over several clicks
  // ---------------------------------------------------------------------

  /** The management page holds the list it read when it opened in
      `environments`; `page` is that list (which the page also renders) and
      `stored` what storage holds. */
  datatype ManagePage = ManagePage(page: seq<BaseEnv>, stored: seq<BaseEnv>)

  /** The add form of the management page: the entry is pushed onto the
      page's list, and that list is stored. */
  function ManageAdd(m: ManagePage, nameInput: string, urlInput: string, parse: Parser)
    : (r: Result<ManagePage, AddError>)
    ensures r.Err? <==> AddBaseEnv(m.page, nameInput, urlInput, parse).Err?
    ensures r.Ok? ==> r.value.page == r.value.stored == AddBaseEnv(m.page, nameInput, urlInput, parse).value
  {
    match AddBaseEnv(m.page, nameInput, urlInput, parse)
    case Err(e) => Err(e)
    case Ok(envs) => Ok(ManagePage(envs, envs))
  }

  /** The delete button as written: the filtered copy of the page's list
      is stored, but the page's list itself is left as it was. */
  function ManageDelete(m: ManagePage, baseUrl: string): (r: ManagePage)
    ensures r.page == m.page
    ensures forall i :: 0 <= i < |r.stored| ==> r.stored[i].baseUrl != baseUrl
    ensures IsSublist(r.stored, m.page)
  {
    FilterSublist(m.page, OtherBaseUrl(baseUrl));
    ManagePage(m.page, DeleteByBaseUrl(m.page, baseUrl))
  }

  /** A second delete brings the first one back: the entry deleted first
      is still on the page's list, and the second delete stores that list
      minus the second entry only. */
  lemma SecondDeleteRestoresFirst(m: ManagePage, e: BaseEnv, other: string)
    requires e in m.page && e.baseUrl != other
    ensures e in ManageDelete(ManageDelete(m, e.baseUrl), other).stored
  {
    FilterMembership(m.page, OtherBaseUrl(other), e);
  }

  /** The delete button with the page's list replaced by the filtered one
      before it is stored. */
  function ManageDeleteFixed(m: ManagePage, baseUrl: string): (r: ManagePage)
    ensures r.page == r.stored
    ensures forall i :: 0 <= i < |r.stored| ==> r.stored[i].baseUrl != baseUrl
  {
    var envs := DeleteByBaseUrl(m.page, baseUrl);
    ManagePage(envs, envs)
  }

  /** Several deletes, in click order. */
  function DeleteAllFixed(m: ManagePage, urls: seq<string>): (r: ManagePage)
    ensures |urls| == 0 ==> r == m
    ensures |urls| > 0 ==> r.page == r.stored
  {
    if |urls| == 0 then m
    else ManageDeleteFixed(DeleteAllFixed(m, urls[..|urls| - 1]), urls[|urls| - 1])
  }

  /** With the fix, deletes accumulate: after any sequence of them storage
      holds exactly the entries of the original list whose base url was
      never deleted. */
  lemma {:induction false} DeletesAccumulate(m: ManagePage, urls: seq<string>, e: BaseEnv)
    ensures e in DeleteAllFixed(m, urls).stored <==>
              (if |urls| == 0 then e in m.stored else e in m.page && e.baseUrl !in urls)
  {
    if |urls| > 0 {
      var init := urls[..|urls| - 1];
      var u := urls[|urls| - 1];
      var prev := DeleteAllFixed(m, init);
      DeletesAccumulate(m, init, e);
      FilterMembership(prev.page, OtherBaseUrl(u), e);
      assert urls == init + [u];
      if |init| == 0 {
        assert e in DeleteAllFixed(m, urls).stored <==> e in m.page && e.baseUrl != u;
      }
    }
  }
}
