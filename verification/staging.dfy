/** The fixed-pair popup (js/popup.js): it pre-fills the second url by
    swapping the production host for the staging host, and stores the two
    urls for the comparison page. */
module StagingPopup {
  import opened Common
  import opened JsString

  const ProductionHost: string := "credaily.com"
  const StagingHost: string := "cre2stg.wpengine.com"

  /** `currentUrl.replace('credaily.com', 'cre2stg.wpengine.com')`. */
  function StagingUrl(currentUrl: string): (r: string)
    ensures !Includes(currentUrl, ProductionHost) ==> r == currentUrl
    ensures Includes(currentUrl, ProductionHost) ==> |r| == |currentUrl| + |StagingHost| - |ProductionHost|
    ensures Includes(currentUrl, ProductionHost) ==>
              exists i :: OccursAt(currentUrl, ProductionHost, i)
                && (forall j :: 0 <= j < i ==> !OccursAt(currentUrl, ProductionHost, j))
                && r == currentUrl[..i] + StagingHost + currentUrl[i + |ProductionHost|..]
  {
    ReplaceFirst(currentUrl, ProductionHost, StagingHost)
  }

  /** The page path survives: on the production site the staging url is
      the same page on the staging host, whatever follows the host. */
  lemma StagingKeepsPath(path: string)
    ensures StagingUrl("https://www.credaily.com" + path) == "https://www.cre2stg.wpengine.com" + path
  {
    var pre := "https://www.";
    assert "https://www.credaily.com" + path == pre + ProductionHost + path;
    assert "https://www.cre2stg.wpengine.com" + path == pre + StagingHost + path;
    ReplaceAfterCleanPrefix(pre, ProductionHost, StagingHost, path);
  }

  /** Only the first occurrence changes: a second mention of the host, in
      the path say, is kept. */
  lemma StagingReplacesOnce(pre: string, rest: string)
    requires forall i :: 0 <= i < |pre| ==> pre[i] != 'c'
    ensures StagingUrl(pre + ProductionHost + rest) == pre + StagingHost + rest
  {
    ReplaceAfterCleanPrefix(pre, ProductionHost, StagingHost, rest);
  }

  /** Why "Compare" is refused. */
  datatype CompareInputError = MissingUrl

  /** The two urls the compare button stores, as entered. */
  datatype UrlPair = UrlPair(env1Url: string, env2Url: string)

  /** The compare handler: both fields must be non-empty. */
  function CompareInput(env1: string, env2: string): (r: Result<UrlPair, CompareInputError>)
    ensures r.Err? <==> env1 == "" || env2 == ""
    ensures r.Ok? ==> r.value.env1Url == env1 && r.value.env2Url == env2
  {
    if env1 == "" || env2 == "" then Err(MissingUrl) else Ok(UrlPair(env1, env2))
  }

  /** The pre-filled form is accepted exactly when the tab has a url. */
  lemma PrefilledFormAccepted(currentUrl: string)
    ensures CompareInput(currentUrl, StagingUrl(currentUrl)).Ok? <==> currentUrl != ""
  {
  }
}
