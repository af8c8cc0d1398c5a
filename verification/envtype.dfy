/** Environment-type classification and display names.

    Three files carry a copy of the same keyword ladder over a lower-cased
    name (content-scripts/floating-widget.js, popup/js/popup.js and
    popup/js/manage.js); they differ only in what they return when there is
    neither a `type` nor a `name`. */
module EnvType {
  import opened Common
  import opened JsString
  import opened Environment
  import opened Url

  /** The six type names the extension knows. */
  predicate IsKnownType(t: string)
  {
    t == "staging" || t == "production" || t == "development"
    || t == "uat" || t == "qa" || t == "custom"
  }

  /** The keyword ladder, applied to an already lower-cased name. */
  function ClassifyLowered(s: string): (r: string)
    ensures IsKnownType(r)
  {
    if Includes(s, "staging") || Includes(s, "stg") then "staging"
    else if Includes(s, "prod") || Includes(s, "production") then "production"
    else if Includes(s, "dev") || Includes(s, "development") then "development"
    else if Includes(s, "uat") then "uat"
    else if Includes(s, "qa") || Includes(s, "test") then "qa"
    else "custom"
  }

  /** The ladder in its simplest form: the first keyword group that occurs
      wins, in the order staging, production, development, uat, qa. The
      source's extra tests for `production` and `development` never decide
      anything, since those words contain `prod` and `dev`. */
  lemma KeywordPriority(s: string)
    ensures ClassifyLowered(s) == "staging" <==> Includes(s, "staging") || Includes(s, "stg")
    ensures ClassifyLowered(s) == "production" <==>
              !Includes(s, "staging") && !Includes(s, "stg") && Includes(s, "prod")
    ensures ClassifyLowered(s) == "development" <==>
              !Includes(s, "staging") && !Includes(s, "stg") && !Includes(s, "prod")
              && Includes(s, "dev")
    ensures ClassifyLowered(s) == "uat" <==>
              !Includes(s, "staging") && !Includes(s, "stg") && !Includes(s, "prod")
              && !Includes(s, "dev") && Includes(s, "uat")
    ensures ClassifyLowered(s) == "qa" <==>
              !Includes(s, "staging") && !Includes(s, "stg") && !Includes(s, "prod")
              && !Includes(s, "dev") && !Includes(s, "uat")
              && (Includes(s, "qa") || Includes(s, "test"))
  {
    if Includes(s, "production") {
      IncludesPrefixOf(s, "production", "prod");
    }
    if Includes(s, "development") {
      IncludesPrefixOf(s, "development", "dev");
    }
  }

  /** `getEnvironmentType` of the floating widget: the `type` property when
      truthy, else the ladder over the name, else `custom`. */
  function WidgetType(e: Env): (r: string)
    ensures e.envType != "" ==> r == e.envType
    ensures e.envType == "" ==> IsKnownType(r)
    ensures e.envType == "" && e.name == "" ==> r == "custom"
  {
    if e.envType != "" then e.envType
    else if e.name != "" then ClassifyLowered(Lower(e.name))
    else "custom"
  }

  /** `getEnvironmentType` of the popup: like the widget's, except that an
      entry with neither type nor name yields the empty string. */
  function PopupType(e: Env): (r: string)
    ensures e.envType != "" ==> r == e.envType
    ensures e.envType == "" && e.name == "" ==> r == ""
    ensures e.envType == "" && e.name != "" ==> IsKnownType(r)
  {
    if e.envType != "" then e.envType
    else if e.name == "" then ""
    else ClassifyLowered(Lower(e.name))
  }

  /** `getEnvironmentTypeFromName` of the management page. */
  function TypeFromName(name: string): (r: string)
    ensures IsKnownType(r)
    ensures name == "" ==> r == "custom"
  {
    if name == "" then "custom" else ClassifyLowered(Lower(name))
  }

  /** The three copies agree everywhere except on an entry with neither
      type nor name, where the popup's yields `''` and the widget's
      `custom`. */
  lemma TypeCopiesAgree(e: Env)
    ensures e.envType != "" || e.name != "" ==> PopupType(e) == WidgetType(e)
    ensures e.envType == "" && e.name == "" ==> PopupType(e) == "" && WidgetType(e) == "custom"
    ensures e.envType == "" ==> WidgetType(e) == TypeFromName(e.name)
  {
  }

  /** Classification by name ignores letter case. */
  lemma TypeFromNameIgnoresCase(name: string)
    ensures TypeFromName(Lower(name)) == TypeFromName(name)
  {
    LowerIdempotent(name);
  }

  /** `generateBaseName`: the display name the management page derives
      from a type (and, for `custom`, from the URL's host name). */
  function BaseName(t: string, url: string, parse: Parser): (r: string)
    ensures t != "custom" ==> |r| == |t| && Lower(r) == Lower(t)
    ensures t == "custom" && parse(url).None? ==> r == "Custom"
    ensures t == "custom" && parse(url).Some? ==> !StartsWith(parse(url).value.hostname, "www.") ==> r == parse(url).value.hostname
    ensures t == "custom" && parse(url).Some? ==> StartsWith(parse(url).value.hostname, "www.") ==> "www." + r == parse(url).value.hostname
    ensures t == "uat" ==> r == "UAT"
    ensures t == "qa" ==> r == "QA"
    ensures t != "custom" && t != "uat" && t != "qa" && |t| > 0 ==> r[0] == UpperChar(t[0]) && r[1..] == t[1..]
  {
    if t == "custom" then
      match parse(url)
      case Some(u) => StripWww(u.hostname)
      case None => "Custom"
    else if t == "uat" then "UAT"
    else if t == "qa" then "QA"
    else if |t| == 0 then ""
    else [UpperChar(t[0])] + t[1..]
  }

  lemma ClassifyProduction()
    ensures ClassifyLowered("production") == "production"
  {
    CharAbsent("production", "staging", 0);
    CharAbsent("production", "stg", 0);
    assert OccursAt("production", "prod", 0);
  }

  lemma DevelopmentLacksProd()
    ensures !Includes("development", "prod")
  {
    var d := "development";
    forall i | 0 <= i < |d| ensures d[i] != "prod"[1] {
    }
    CharAbsent(d, "prod", 1);
  }

  lemma ClassifyDevelopment()
    ensures ClassifyLowered("development") == "development"
  {
    CharAbsent("development", "staging", 0);
    CharAbsent("development", "stg", 0);
    DevelopmentLacksProd();
    assert OccursAt("development", "dev", 0);
    KeywordPriority("development");
  }

  lemma ClassifyUat()
    ensures ClassifyLowered("uat") == "uat"
  {
    CharAbsent("uat", "staging", 0);
    CharAbsent("uat", "stg", 0);
    CharAbsent("uat", "prod", 0);
    CharAbsent("uat", "dev", 0);
    assert OccursAt("uat", "uat", 0);
  }

  lemma ClassifyQa()
    ensures ClassifyLowered("qa") == "qa"
  {
    CharAbsent("qa", "staging", 0);
    CharAbsent("qa", "stg", 0);
    CharAbsent("qa", "prod", 0);
    CharAbsent("qa", "dev", 0);
    CharAbsent("qa", "uat", 0);
    assert OccursAt("qa", "qa", 0);
  }

  /** Each standard type name is classified as itself. */
  lemma ClassifyStandard(t: string)
    requires IsKnownType(t) && t != "custom"
    ensures ClassifyLowered(t) == t
  {
    if t == "staging" {
      assert OccursAt(t, "staging", 0);
    } else if t == "production" {
      ClassifyProduction();
    } else if t == "development" {
      ClassifyDevelopment();
    } else if t == "uat" {
      ClassifyUat();
    } else {
      ClassifyQa();
    }
  }

  /** The generated name of each standard type is classified back to that
      type, so the management list colours an entry by the type it was
      created with. */
  lemma BaseNameClassifiesBack(t: string, url: string, parse: Parser)
    requires IsKnownType(t) && t != "custom"
    ensures TypeFromName(BaseName(t, url, parse)) == t
  {
    var n := BaseName(t, url, parse);
    assert Lower(n) == Lower(t);
    LowerIdempotent(t);
    assert Lower(t) == t by {
      forall i | 0 <= i < |t| ensures LowerChar(t[i]) == t[i] { }
    }
    ClassifyStandard(t);
  }
}
